/** The channel breakdown of the dashboard (`channelData` in
    components/EVPMDashboard.tsx): the joined rows grouped by channel, an empty
    channel counted as "Other", with the plan and achievement of the selected
    KPI summed per group and a rounded achievement percentage. */
module Channels {
  import opened Basics
  import opened Records
  import opened Aggregates

  /** The channel a row is grouped under in `channelData`; rows without one go to "Other". */
  function ChannelKey(row: KpiRow): string {
    if row.plan.channel == "" then "Other" else row.plan.channel
  }

  /** The sum of one column over the rows of channel `name`. */
  function ChannelTotal(rows: seq<KpiRow>, name: string, side: Side, k: Kpi): int {
    SumSeq(rows, row => if ChannelKey(row) == name then Amount(row, side, k) else 0)
  }

  /** The channels present among the rows. */
  ghost function ChannelKeys(rows: seq<KpiRow>): set<string> {
    set i | 0 <= i < |rows| :: ChannelKey(rows[i])
  }

  lemma ChannelKeysSnoc(rows: seq<KpiRow>, i: nat)
    requires i < |rows|
    ensures ChannelKeys(rows[..i + 1]) == ChannelKeys(rows[..i]) + {ChannelKey(rows[i])}
  {
    var pre, ext := rows[..i], rows[..i + 1];
    assert ext[i] == rows[i];
    forall c | c in ChannelKeys(ext) ensures c in ChannelKeys(pre) + {ChannelKey(rows[i])} {
      var j :| 0 <= j < |ext| && ChannelKey(ext[j]) == c;
      if j < i {
        assert pre[j] == ext[j];
      }
    }
    forall c | c in ChannelKeys(pre) ensures c in ChannelKeys(ext) {
      var j :| 0 <= j < |pre| && ChannelKey(pre[j]) == c;
      assert ext[j] == pre[j];
    }
  }

  /** A channel with no rows sums to zero. */
  lemma {:induction false} ChannelTotalAbsent(rows: seq<KpiRow>, c: string, side: Side, k: Kpi)
    requires c !in ChannelKeys(rows)
    ensures ChannelTotal(rows, c, side, k) == 0
  {
    if rows != [] {
      var pre := rows[..|rows| - 1];
      assert ChannelKeys(pre) <= ChannelKeys(rows) by {
        forall x | x in ChannelKeys(pre) ensures x in ChannelKeys(rows) {
          var j :| 0 <= j < |pre| && ChannelKey(pre[j]) == x;
          assert rows[j] == pre[j];
        }
      }
      assert ChannelKey(rows[|rows| - 1]) in ChannelKeys(rows);
      ChannelTotalAbsent(pre, c, side, k);
    }
  }

  /** The accumulator of one channel: `{name, Plan, Actual}`. */
  datatype ChannelAcc = ChannelAcc(name: string, plan: int, actual: int)

  /** One entry of `channelData`: `{name, Plan, Actual, achPct}`. */
  datatype ChannelPoint = ChannelPoint(name: string, plan: int, actual: int, achPct: int)

  function AccPlan(g: ChannelAcc): int { g.plan }
  function AccActual(g: ChannelAcc): int { g.actual }
  function PointPlan(p: ChannelPoint): int { p.plan }
  function PointActual(p: ChannelPoint): int { p.actual }

  /** The accumulators hold exactly the channels seen among the first `i` rows,
      each named after its channel and holding that channel's sums. */
  ghost predicate PerChannel(rows: seq<KpiRow>, i: nat, k: Kpi, acc: map<string, ChannelAcc>)
    requires i <= |rows|
  {
    && acc.Keys == ChannelKeys(rows[..i])
    && forall c :: c in acc ==>
         acc[c] == ChannelAcc(c, ChannelTotal(rows[..i], c, Planned, k), ChannelTotal(rows[..i], c, Achieved, k))
  }

  /** The accumulators together hold the column totals of the first `i` rows. */
  ghost predicate SumsMatch(rows: seq<KpiRow>, i: nat, k: Kpi, keys: seq<string>, acc: map<string, ChannelAcc>)
    requires i <= |rows| && KeyOrder(keys, acc)
  {
    && SumSeq(Values(keys, acc), AccPlan) == Total(rows[..i], Planned, k)
    && SumSeq(Values(keys, acc), AccActual) == Total(rows[..i], Achieved, k)
  }

  /** The state of the reduce after the first `i` rows. */
  ghost predicate ChannelAccs(rows: seq<KpiRow>, i: nat, k: Kpi, keys: seq<string>, acc: map<string, ChannelAcc>)
    requires i <= |rows|
  {
    KeyOrder(keys, acc) && PerChannel(rows, i, k, acc) && SumsMatch(rows, i, k, keys, acc)
  }

  /** The accumulator of `row`'s channel after the row is added to it: the one
      already there, or `{name, Plan: 0, Actual: 0}` if the channel is new, with
      the row's plan and achievement added. */
  function Bump(acc: map<string, ChannelAcc>, row: KpiRow, k: Kpi): ChannelAcc {
    var ch := ChannelKey(row);
    var base := if ch in acc then acc[ch] else ChannelAcc(ch, 0, 0);
    ChannelAcc(ch, base.plan + Amount(row, Planned, k), base.actual + Amount(row, Achieved, k))
  }

  lemma ChannelTotalSnoc(rows: seq<KpiRow>, i: nat, k: Kpi)
    requires i < |rows|
    ensures forall c, side :: ChannelTotal(rows[..i + 1], c, side, k)
              == ChannelTotal(rows[..i], c, side, k) + (if ChannelKey(rows[i]) == c then Amount(rows[i], side, k) else 0)
    ensures forall side :: Total(rows[..i + 1], side, k) == Total(rows[..i], side, k) + Amount(rows[i], side, k)
  {
    forall c, side ensures ChannelTotal(rows[..i + 1], c, side, k)
                             == ChannelTotal(rows[..i], c, side, k) + (if ChannelKey(rows[i]) == c then Amount(rows[i], side, k) else 0) {
      SumSeqSnoc(rows, i, row => if ChannelKey(row) == c then Amount(row, side, k) else 0);
    }
    forall side ensures Total(rows[..i + 1], side, k) == Total(rows[..i], side, k) + Amount(rows[i], side, k) {
      SumSeqSnoc(rows, i, row => Amount(row, side, k));
    }
  }

  lemma PerChannelStep(rows: seq<KpiRow>, i: nat, k: Kpi, acc: map<string, ChannelAcc>)
    requires i < |rows| && PerChannel(rows, i, k, acc)
    ensures PerChannel(rows, i + 1, k, acc[ChannelKey(rows[i]) := Bump(acc, rows[i], k)])
  {
    var ch := ChannelKey(rows[i]);
    var acc1 := acc[ch := Bump(acc, rows[i], k)];
    ChannelKeysSnoc(rows, i);
    ChannelTotalSnoc(rows, i, k);
    if ch !in acc {
      ChannelTotalAbsent(rows[..i], ch, Planned, k);
      ChannelTotalAbsent(rows[..i], ch, Achieved, k);
    }
    forall c | c in acc1
      ensures acc1[c] == ChannelAcc(c, ChannelTotal(rows[..i + 1], c, Planned, k), ChannelTotal(rows[..i + 1], c, Achieved, k))
    {
    }
  }

  lemma SumsStep(rows: seq<KpiRow>, i: nat, k: Kpi, keys: seq<string>, acc: map<string, ChannelAcc>)
    requires i < |rows| && KeyOrder(keys, acc) && SumsMatch(rows, i, k, keys, acc)
    requires forall c :: c in acc ==> acc[c].name == c
    ensures var ch := ChannelKey(rows[i]);
            var keys' := if ch in acc then keys else keys + [ch];
            KeyOrder(keys', acc[ch := Bump(acc, rows[i], k)]) && SumsMatch(rows, i + 1, k, keys', acc[ch := Bump(acc, rows[i], k)])
  {
    var ch := ChannelKey(rows[i]);
    var zero := ChannelAcc(ch, 0, 0);
    var g := Bump(acc, rows[i], k);
    ChannelTotalSnoc(rows, i, k);
    if ch in acc {
      UpdateKey(keys, acc, ch, g, AccPlan);
      UpdateKey(keys, acc, ch, g, AccActual);
    } else {
      InsertKey(keys, acc, ch, zero, AccPlan);
      InsertKey(keys, acc, ch, zero, AccActual);
      var keys0, acc0 := keys + [ch], acc[ch := zero];
      UpdateKey(keys0, acc0, ch, g, AccPlan);
      UpdateKey(keys0, acc0, ch, g, AccActual);
      assert acc0[ch := g] == acc[ch := g];
    }
  }

  /** One step of the reduce: create the channel's accumulator if it is new, then
      add the row's plan and achievement to it. */
  lemma AccumulateChannel(rows: seq<KpiRow>, i: nat, k: Kpi, keys: seq<string>, acc: map<string, ChannelAcc>)
    requires i < |rows| && ChannelAccs(rows, i, k, keys, acc)
    ensures var ch := ChannelKey(rows[i]);
            ChannelAccs(rows, i + 1, k, if ch in acc then keys else keys + [ch], acc[ch := Bump(acc, rows[i], k)])
  {
    PerChannelStep(rows, i, k, acc);
    SumsStep(rows, i, k, keys, acc);
  }

  /** Each channel accumulator with its achievement percentage, as `channelData` maps them. */
  function ToPoints(groups: seq<ChannelAcc>): (r: seq<ChannelPoint>)
    ensures |r| == |groups|
    ensures forall j :: 0 <= j < |r| ==> r[j] == ChannelPoint(groups[j].name, groups[j].plan, groups[j].actual, AchPct(groups[j].actual, groups[j].plan))
  {
    seq(|groups|, j requires 0 <= j < |groups| =>
      ChannelPoint(groups[j].name, groups[j].plan, groups[j].actual, AchPct(groups[j].actual, groups[j].plan)))
  }

  /** The entries read through `Object.values` are named by the channels, once
      each, in the order of the keys. */
  lemma PointNames(keys: seq<string>, acc: map<string, ChannelAcc>)
    requires KeyOrder(keys, acc) && forall c :: c in acc ==> acc[c].name == c
    ensures var r := ToPoints(Values(keys, acc));
            && |r| == |keys| && (forall i :: 0 <= i < |r| ==> r[i].name == keys[i])
            && (forall i, j :: 0 <= i < j < |r| ==> r[i].name != r[j].name)
            && (set i | 0 <= i < |r| :: r[i].name) == acc.Keys
  {
    var r := ToPoints(Values(keys, acc));
    assert forall j :: 0 <= j < |r| ==> r[j].name == keys[j];
    forall c | c in acc ensures c in (set j | 0 <= j < |r| :: r[j].name) {
      var j :| 0 <= j < |keys| && keys[j] == c;
      assert r[j].name == c;
    }
  }

  /** Each entry of the finished reduce holds its channel's sums and percentage. */
  lemma PointTotals(rows: seq<KpiRow>, k: Kpi, keys: seq<string>, acc: map<string, ChannelAcc>)
    requires KeyOrder(keys, acc) && PerChannel(rows, |rows|, k, acc)
    ensures var r := ToPoints(Values(keys, acc));
            && (forall i :: 0 <= i < |r| ==> r[i].plan == ChannelTotal(rows, r[i].name, Planned, k))
            && (forall i :: 0 <= i < |r| ==> r[i].actual == ChannelTotal(rows, r[i].name, Achieved, k))
            && (forall i :: 0 <= i < |r| ==> r[i].achPct == AchPct(r[i].actual, r[i].plan))
  {
    assert rows[..|rows|] == rows;
  }

  /** The entries of the finished reduce add up to the column totals. */
  lemma PointSums(rows: seq<KpiRow>, k: Kpi, keys: seq<string>, acc: map<string, ChannelAcc>)
    requires KeyOrder(keys, acc) && SumsMatch(rows, |rows|, k, keys, acc)
    ensures var r := ToPoints(Values(keys, acc));
            && SumSeq(r, PointPlan) == Total(rows, Planned, k)
            && SumSeq(r, PointActual) == Total(rows, Achieved, k)
  {
    assert rows[..|rows|] == rows;
    var groups := Values(keys, acc);
    var r := ToPoints(groups);
    SumSeqPointwise(r, PointPlan, groups, AccPlan);
    SumSeqPointwise(r, PointActual, groups, AccActual);
  }

  /** What the finished reduce gives, read through `Object.values` and the map. */
  lemma BreakdownOfAccs(rows: seq<KpiRow>, k: Kpi, keys: seq<string>, acc: map<string, ChannelAcc>)
    requires ChannelAccs(rows, |rows|, k, keys, acc)
    ensures var r := ToPoints(Values(keys, acc));
            && (forall i, j :: 0 <= i < j < |r| ==> r[i].name != r[j].name)
            && (set i | 0 <= i < |r| :: r[i].name) == ChannelKeys(rows)
            && (forall i :: 0 <= i < |r| ==> r[i].plan == ChannelTotal(rows, r[i].name, Planned, k))
            && (forall i :: 0 <= i < |r| ==> r[i].actual == ChannelTotal(rows, r[i].name, Achieved, k))
            && (forall i :: 0 <= i < |r| ==> r[i].achPct == AchPct(r[i].actual, r[i].plan))
            && SumSeq(r, PointPlan) == Total(rows, Planned, k)
            && SumSeq(r, PointActual) == Total(rows, Achieved, k)
  {
    assert rows[..|rows|] == rows;
    PointNames(keys, acc);
    PointTotals(rows, k, keys, acc);
    PointSums(rows, k, keys, acc);
  }

  /** The `reduce` of `channelData`: the accumulators of all rows, keyed by
      channel in first-seen order. */
  method ReduceChannels(rows: seq<KpiRow>, k: Kpi) returns (keys: seq<string>, acc: map<string, ChannelAcc>)
    ensures ChannelAccs(rows, |rows|, k, keys, acc)
    ensures keys == FirstSeenKeys(rows, ChannelKey)
  {
    acc := map[];
    keys := [];
    var i := 0;
    assert rows[..0] == [];
    while i < |rows|
      invariant i <= |rows|
      invariant ChannelAccs(rows, i, k, keys, acc)
      invariant keys == FirstSeenKeys(rows[..i], ChannelKey)
    {
      var ch := ChannelKey(rows[i]);
      AccumulateChannel(rows, i, k, keys, acc);
      FirstSeenKeysSnoc(rows, i, ChannelKey);
      keys := if ch in acc then keys else keys + [ch];
      acc := acc[ch := Bump(acc, rows[i], k)];
      i := i + 1;
    }
    assert rows[..i] == rows;
  }

  /** `channelData`: one entry per channel present (an empty channel counted as
      "Other"), in the order the channels first appear, each holding the sums of the selected KPI's plan and achievement
      over its rows and the rounded percentage; the entries' plans and
      achievements add up to the dashboard's aggregate plan and achievement. */
  method ChannelBreakdown(rows: seq<KpiRow>, k: Kpi) returns (r: seq<ChannelPoint>)
    ensures |r| == |FirstSeenKeys(rows, ChannelKey)|
    ensures forall i :: 0 <= i < |r| ==> r[i].name == FirstSeenKeys(rows, ChannelKey)[i]
    ensures forall i, j :: 0 <= i < j < |r| ==> r[i].name != r[j].name
    ensures (set i | 0 <= i < |r| :: r[i].name) == ChannelKeys(rows)
    ensures forall i :: 0 <= i < |r| ==> r[i].plan == ChannelTotal(rows, r[i].name, Planned, k)
    ensures forall i :: 0 <= i < |r| ==> r[i].actual == ChannelTotal(rows, r[i].name, Achieved, k)
    ensures forall i :: 0 <= i < |r| ==> r[i].achPct == AchPct(r[i].actual, r[i].plan)
    ensures SumSeq(r, PointPlan) == ComputeAggregates(rows).Get(Planned, k)
    ensures SumSeq(r, PointActual) == ComputeAggregates(rows).Get(Achieved, k)
  {
    var keys, acc := ReduceChannels(rows, k);
    BreakdownOfAccs(rows, k, keys, acc);
    r := ToPoints(Values(keys, acc));
  }
}
