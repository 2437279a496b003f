/** The two tables the dashboard reads and the row it derives from them: a plan
    row per salesman (targets for five KPIs), an achievement row per salesman and
    day, and the joined KPI row. Every text field is held as the string
    `String(value)` gives; every KPI cell as the number `Number(value)` gives. */
module Records {
  import opened Basics

  /** The five performance indicators. */
  datatype Kpi = GSV | ECO | PC | LPC | MVS

  /** A KPI cell after `Number(...)`: an integer, or NaN for text that is not a number. */
  datatype Cell = Num(n: int) | NaN

  /** The numeric value of a cell; a cell that is not a number counts as zero. */
  function Val(c: Cell): int {
    match c
    case Num(n) => n
    case NaN => 0
  }

  /** One cell per KPI, reached through a typed accessor instead of a column name
      such as "Plan GSV" or "Ach GSV". */
  datatype KpiCells = KpiCells(gsv: Cell, eco: Cell, pc: Cell, lpc: Cell, mvs: Cell) {
    function Get(k: Kpi): Cell {
      match k
      case GSV => gsv
      case ECO => eco
      case PC => pc
      case LPC => lpc
      case MVS => mvs
    }
  }

  /** The five zeros the join uses when no achievement matches. */
  const ZeroCells := KpiCells(Num(0), Num(0), Num(0), Num(0), Num(0))

  /** The plan-row columns a filter can name: `SALESMANNO`, `SALESMANNAMEA`,
      `Dist Name`, `Region`, `RSM`, `SM`, `T.L Name`, `Channel`. */
  datatype Field = SalesmanNo | SalesmanName | DistName | Region | Rsm | Sm | TeamLeader | Channel

  /** One salesman's monthly targets (`Plan GSV` ... `Plan MVS` in `plan`). */
  datatype PlanRow = PlanRow(
    salesmanNo: string, salesmanName: string, distName: string, region: string,
    rsm: string, sm: string, teamLeader: string, channel: string, plan: KpiCells)
  {
    /** The text of the row in the filtered column. */
    function Get(f: Field): string {
      match f
      case SalesmanNo => salesmanNo
      case SalesmanName => salesmanName
      case DistName => distName
      case Region => region
      case Rsm => rsm
      case Sm => sm
      case TeamLeader => teamLeader
      case Channel => channel
    }
  }

  /** One salesman's achievement on one day (`Ach GSV` ... `Ach MVS` in `ach`); `days`
      is a date-bearing string such as "2024-03-05" or "2024-03-05T00:00:00.000Z". */
  datatype AchievedRow = AchievedRow(salesmanNo: string, days: string, ach: KpiCells)

  /** A plan row with the five `Ach *` cells of its matched achievement. */
  datatype KpiRow = KpiRow(plan: PlanRow, ach: KpiCells)

  datatype Side = Planned | Achieved

  /** The planned or achieved amount of one KPI in a joined row, zero when not a number. */
  function Amount(row: KpiRow, side: Side, k: Kpi): int {
    match side
    case Planned => Val(row.plan.plan.Get(k))
    case Achieved => Val(row.ach.Get(k))
  }

  function FieldValues(rows: seq<PlanRow>, f: Field): (r: seq<string>)
    ensures |r| == |rows| && forall i :: 0 <= i < |rows| ==> r[i] == rows[i].Get(f)
  {
    seq(|rows|, i requires 0 <= i < |rows| => rows[i].Get(f))
  }

  /** `getUniqueValues(rows, key)`: the distinct values of one column. */
  function UniqueValues(rows: seq<PlanRow>, f: Field): (r: seq<string>)
    ensures NoDuplicates(r)
    ensures forall v :: v in r <==> exists row :: row in rows && row.Get(f) == v
  {
    var vs := FieldValues(rows, f);
    assert forall v :: v in vs <==> exists row :: row in rows && row.Get(f) == v by {
      forall v ensures v in vs <==> exists row :: row in rows && row.Get(f) == v {
        if exists row :: row in rows && row.Get(f) == v {
          var row :| row in rows && row.Get(f) == v;
          var i :| 0 <= i < |rows| && rows[i] == row;
          assert vs[i] == v;
        }
      }
    }
    Distinct(vs)
  }
}
