/** The data merge of the dashboard (`currentViewData` in
    components/EVPMDashboard.tsx): every filtered plan row is paired with the
    first achievement of the same salesman whose `Days` contains the selected
    date, or with zeros when there is none. */
module Join {
  import opened Basics
  import opened Text
  import opened Records

  /** The join condition: same salesman number once both are trimmed, and the
      selected date occurs somewhere in `Days`. */
  predicate AchMatches(a: AchievedRow, planId: string, date: string) {
    Trim(a.salesmanNo) == planId && Contains(a.days, date)
  }

  /** Achievement `j` is the first one matching the plan's salesman and the date. */
  predicate FirstMatchAt(achs: seq<AchievedRow>, planId: string, date: string, j: int) {
    && 0 <= j < |achs| && AchMatches(achs[j], planId, date)
    && forall j' :: 0 <= j' < j ==> !AchMatches(achs[j'], planId, date)
  }

  /** No achievement matches the plan's salesman and the date. */
  predicate NoMatch(achs: seq<AchievedRow>, planId: string, date: string) {
    forall j :: 0 <= j < |achs| ==> !AchMatches(achs[j], planId, date)
  }

  /** There is at most one first match. */
  lemma FirstMatchUnique(achs: seq<AchievedRow>, planId: string, date: string, j: int, k: int)
    requires FirstMatchAt(achs, planId, date, j) && FirstMatchAt(achs, planId, date, k)
    ensures j == k
  {
  }

  /** The achievement lookup of `currentViewData` for one plan: the first match, or none when nothing
      matches. */
  function FindAchievement(achs: seq<AchievedRow>, planId: string, date: string): (r: Option<nat>)
    ensures r.Some? ==> FirstMatchAt(achs, planId, date, r.value)
    ensures r.None? ==> NoMatch(achs, planId, date)
  {
    FindFirst(achs, a => AchMatches(a, planId, date))
  }

  /** One row of `currentViewData`: the plan
      unchanged, with the cells of the first matching achievement, or zeros. */
  function JoinRow(plan: PlanRow, achs: seq<AchievedRow>, date: string): (r: KpiRow)
    ensures r.plan == plan
    ensures forall j :: FirstMatchAt(achs, Trim(plan.salesmanNo), date, j) ==> r.ach == achs[j].ach
    ensures NoMatch(achs, Trim(plan.salesmanNo), date) ==> r.ach == ZeroCells
  {
    var planId := Trim(plan.salesmanNo);
    match FindAchievement(achs, planId, date)
    case Some(k) =>
      assert forall j :: FirstMatchAt(achs, planId, date, j) ==> j == k by {
        forall j | FirstMatchAt(achs, planId, date, j) ensures j == k {
          FirstMatchUnique(achs, planId, date, j, k);
        }
      }
      KpiRow(plan, achs[k].ach)
    case None =>
      assert forall j :: !FirstMatchAt(achs, planId, date, j);
      KpiRow(plan, ZeroCells)
  }

  /** `currentViewData`: one joined row per plan row, in the same order, the plan
      fields unchanged; the `Ach *` cells are those of the first matching
      achievement, or all zero when no achievement matches. */
  function CurrentViewData(plans: seq<PlanRow>, achs: seq<AchievedRow>, date: string): (r: seq<KpiRow>)
    ensures |r| == |plans|
    ensures forall i :: 0 <= i < |r| ==> r[i].plan == plans[i]
    ensures forall i, j :: 0 <= i < |r| && FirstMatchAt(achs, Trim(plans[i].salesmanNo), date, j) ==> r[i].ach == achs[j].ach
    ensures forall i :: 0 <= i < |r| && NoMatch(achs, Trim(plans[i].salesmanNo), date) ==> r[i].ach == ZeroCells
  {
    var r := seq(|plans|, i requires 0 <= i < |plans| => JoinRow(plans[i], achs, date));
    r
  }
}
