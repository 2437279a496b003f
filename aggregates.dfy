/** The ten headline totals of the dashboard (`aggregates` in
    components/EVPMDashboard.tsx): plan and achievement of each of the five KPIs,
    summed over the joined rows, and the rounded achievement percentage used
    by the channel breakdown. */
module Aggregates {
  import opened Basics
  import opened Records

  /** One number per KPI. */
  datatype KpiSums = KpiSums(gsv: int, eco: int, pc: int, lpc: int, mvs: int) {
    function Get(k: Kpi): int {
      match k
      case GSV => gsv
      case ECO => eco
      case PC => pc
      case LPC => lpc
      case MVS => mvs
    }
  }

  /** The ten running totals of `aggregates`: planned and achieved, per KPI. */
  datatype Totals = Totals(planned: KpiSums, achieved: KpiSums) {
    function Get(side: Side, k: Kpi): int {
      match side
      case Planned => planned.Get(k)
      case Achieved => achieved.Get(k)
    }
  }

  /** The initial accumulator of the reduce: all ten totals zero. */
  const NoTotals := Totals(KpiSums(0, 0, 0, 0, 0), KpiSums(0, 0, 0, 0, 0))

  /** The sum of one column (plan or achievement of one KPI) over the joined rows. */
  function Total(rows: seq<KpiRow>, side: Side, k: Kpi): int {
    SumSeq(rows, row => Amount(row, side, k))
  }

  function AddSums(acc: KpiSums, row: KpiRow, side: Side): KpiSums {
    KpiSums(acc.gsv + Amount(row, side, GSV), acc.eco + Amount(row, side, ECO),
            acc.pc + Amount(row, side, PC), acc.lpc + Amount(row, side, LPC),
            acc.mvs + Amount(row, side, MVS))
  }

  /** One step of the reduce: each of the ten totals grows by the row's value. */
  function AddRow(acc: Totals, row: KpiRow): (r: Totals)
    ensures forall side, k :: r.Get(side, k) == acc.Get(side, k) + Amount(row, side, k)
  {
    Totals(AddSums(acc.planned, row, Planned), AddSums(acc.achieved, row, Achieved))
  }

  /** The fold of `aggregates` over the joined rows, adding each row's cells. */
  function Reduce(acc: Totals, rows: seq<KpiRow>): Totals
    decreases |rows|
  {
    if rows == [] then acc else Reduce(AddRow(acc, rows[0]), rows[1..])
  }

  lemma {:induction false} ReduceAdds(acc: Totals, rows: seq<KpiRow>)
    ensures forall side, k :: Reduce(acc, rows).Get(side, k) == acc.Get(side, k) + Total(rows, side, k)
    decreases |rows|
  {
    if rows != [] {
      ReduceAdds(AddRow(acc, rows[0]), rows[1..]);
      forall side, k ensures Total(rows, side, k) == Amount(rows[0], side, k) + Total(rows[1..], side, k) {
        assert rows == [rows[0]] + rows[1..];
        SumSeqCons(rows[0], rows[1..], row => Amount(row, side, k));
      }
    }
  }

  /** `aggregates`: each of the ten totals is the sum of its column over the joined
      rows, a non-numeric cell counting as zero; no rows give all zeros. */
  function ComputeAggregates(rows: seq<KpiRow>): (r: Totals)
    ensures forall side, k :: r.Get(side, k) == Total(rows, side, k)
    ensures rows == [] ==> r == NoTotals
  {
    ReduceAdds(NoTotals, rows);
    Reduce(NoTotals, rows)
  }

  /** The achievement percentage of `channelData`: the
      nearest integer to 100 * actual / plan, halves rounded up; zero when the
      plan is not positive. */
  function AchPct(actual: int, plan: int): (pct: int)
    ensures plan <= 0 ==> pct == 0
    ensures plan > 0 ==> 2 * plan * pct <= 200 * actual + plan < 2 * plan * (pct + 1)
  {
    if plan > 0 then (200 * actual + plan) / (2 * plan) else 0
  }
}
