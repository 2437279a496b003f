/** The state of the dashboard (components/EVPMDashboard.tsx): the active filters,
    seeded from the seven filter fields and the permission filters of the signed-in
    user; the selected date, seeded with today and moved to the latest date
    with data when today has none; and the two view flags derived from the
    permission filters. */
module Dashboard {
  import opened Basics
  import opened Text
  import opened Records
  import opened Filters
  import opened Join

  /** The seven fields the filter bar offers: Region, RSM, SM, Dist Name,
      T.L Name, SALESMANNAMEA, Channel. */
  predicate IsBarField(f: Field) {
    f in {Region, Rsm, Sm, DistName, TeamLeader, SalesmanName, Channel}
  }

  /** The initial filter state: the seven bar fields empty, then every permission
      filter laid over them (`{Region: '', ..., ...userFilters}`). */
  function InitialFilters(userFilters: FilterSet): (r: FilterSet)
    ensures forall f :: f in r <==> IsBarField(f) || f in userFilters
    ensures forall f :: f in userFilters ==> r[f] == userFilters[f]
    ensures forall f :: f in r && f !in userFilters ==> r[f] == ""
  {
    map f | IsBarField(f) || f in userFilters :: if f in userFilters then userFilters[f] else ""
  }

  /** The reset state of `handleClearFilters`: each of the seven bar fields set to
      its permission value, or empty. */
  function ClearedFilters(userFilters: FilterSet): (r: FilterSet)
    ensures forall f :: f in r <==> IsBarField(f)
    ensures forall f :: f in r ==> r[f] == if f in userFilters then userFilters[f] else ""
  {
    map f | IsBarField(f) :: if f in userFilters then userFilters[f] else ""
  }

  /** Before any change, every row the dashboard shows passes the permission filters. */
  lemma InitialFiltersKeepPermissions(userFilters: FilterSet, row: PlanRow)
    requires Matches(row, InitialFilters(userFilters))
    ensures Matches(row, userFilters)
  {
    var init := InitialFilters(userFilters);
    forall f | f in userFilters && userFilters[f] != "" ensures row.Get(f) == userFilters[f] {
      assert f in init && init[f] == userFilters[f];
    }
  }

  /** After a reset, every row shown passes the permission filters on the seven
      bar fields. */
  lemma ClearedFiltersKeepBarPermissions(userFilters: FilterSet, row: PlanRow, f: Field)
    requires Matches(row, ClearedFilters(userFilters))
    requires IsBarField(f) && f in userFilters && userFilters[f] != ""
    ensures row.Get(f) == userFilters[f]
  {
    assert f in ClearedFilters(userFilters);
  }

  /** A reset does not keep a permission filter outside the seven bar fields:
      a salesman restricted by SALESMANNO "7" sees, after clearing, a plan row of
      salesman "8" that the initial state hid. */
  lemma ClearFiltersDropsSalesmanFloor()
    ensures var uf: FilterSet := map[SalesmanNo := "7"];
            var other := PlanRow("8", "", "", "", "", "", "", "", ZeroCells);
            && !Matches(other, InitialFilters(uf))
            && Matches(other, ClearedFilters(uf))
  {
    var uf: FilterSet := map[SalesmanNo := "7"];
    var other := PlanRow("8", "", "", "", "", "", "", "", ZeroCells);
    assert SalesmanNo in InitialFilters(uf) && other.Get(SalesmanNo) != "7";
    assert !IsBarField(SalesmanNo);
  }

  /** `isSalesman`: the permission filters name a salesman number, so the user is a single salesman. */
  predicate IsSalesman(userFilters: FilterSet) {
    SalesmanNo in userFilters && userFilters[SalesmanNo] != ""
  }

  /** `isRestrictedView`: the permission filters name a distributor, or the user is a salesman; the user sees one distributor
      or one salesman, so the rankings are hidden (the channel view is hidden for a salesman only). */
  predicate IsRestrictedView(userFilters: FilterSet) {
    (DistName in userFilters && userFilters[DistName] != "") || IsSalesman(userFilters)
  }

  /** Under the initial filters, the view flags mean what their names say: a
      salesman's view is restricted, a salesman sees the rows of that one
      salesman number only, and a restricted view shows rows that share the
      distributor or the salesman number. */
  lemma ViewFlags(userFilters: FilterSet, a: PlanRow, b: PlanRow)
    ensures IsSalesman(userFilters) ==> IsRestrictedView(userFilters)
    ensures IsSalesman(userFilters) && Matches(a, InitialFilters(userFilters)) && Matches(b, InitialFilters(userFilters)) ==>
              a.salesmanNo == b.salesmanNo == userFilters[SalesmanNo]
    ensures IsRestrictedView(userFilters) && Matches(a, InitialFilters(userFilters)) && Matches(b, InitialFilters(userFilters)) ==>
              a.distName == b.distName || a.salesmanNo == b.salesmanNo
  {
    var init := InitialFilters(userFilters);
    if Matches(a, init) && Matches(b, init) {
      if IsSalesman(userFilters) {
        assert SalesmanNo in init && init[SalesmanNo] == userFilters[SalesmanNo];
        assert a.Get(SalesmanNo) == b.Get(SalesmanNo) == userFilters[SalesmanNo];
      } else if IsRestrictedView(userFilters) {
        assert DistName in init && init[DistName] == userFilters[DistName];
        assert a.Get(DistName) == b.Get(DistName);
      }
    }
  }

  /** Some achievement's `Days` text contains today's date. */
  predicate HasDataFor(achs: seq<AchievedRow>, today: string) {
    exists i :: 0 <= i < |achs| && Contains(achs[i].days, today)
  }

  /** The date key of every achievement, the part of `Days` before any "T", as the auto-select effect collects them. */
  function DateKeys(achs: seq<AchievedRow>): (r: seq<string>)
    ensures |r| == |achs| && forall i :: 0 <= i < |achs| ==> r[i] == BeforeFirst(achs[i].days, "T")
  {
    seq(|achs|, i requires 0 <= i < |achs| => BeforeFirst(achs[i].days, "T"))
  }

  /** `uniqueDates`: the distinct date keys that look like `YYYY-MM-DD`. */
  function IsoDateKeys(achs: seq<AchievedRow>): (r: seq<string>)
    ensures NoDuplicates(r)
    ensures forall d :: d in r <==> IsIsoDate(d) && exists i :: 0 <= i < |achs| && BeforeFirst(achs[i].days, "T") == d
  {
    var keys := DateKeys(achs);
    Distinct(Filter(keys, IsIsoDate))
  }

  /** The last element of the sorted keys, that is their maximum in code-point
      order. */
  function Latest(keys: seq<string>): (r: string)
    requires keys != []
    ensures r in keys
    ensures forall d :: d in keys ==> d == r || LexLess(d, r)
  {
    if |keys| == 1 then keys[0]
    else
      var m := Latest(keys[1..]);
      assert forall d :: d in keys ==> d == keys[0] || d in keys[1..] by {
        assert keys == [keys[0]] + keys[1..];
      }
      if LexLess(m, keys[0]) then
        assert forall d :: d in keys[1..] ==> d == m || LexLess(d, m);
        assert forall d :: d in keys[1..] && d != m ==> LexLess(d, keys[0]) by {
          forall d | d in keys[1..] && d != m ensures LexLess(d, keys[0]) {
            LexLessTransitive(d, m, keys[0]);
          }
        }
        keys[0]
      else
        assert keys[0] == m || LexLess(keys[0], m) by {
          if keys[0] != m {
            LexLessTotal(keys[0], m);
          }
        }
        m
  }

  /** The date the auto-select effect leaves selected: with achievements present
      and none mentioning today, the latest `YYYY-MM-DD` date key if there is one;
      otherwise the current selection. */
  function AutoSelectedDate(achs: seq<AchievedRow>, today: string, current: string): (r: string)
    ensures (|achs| == 0 || HasDataFor(achs, today) || IsoDateKeys(achs) == []) ==> r == current
    ensures (|achs| > 0 && !HasDataFor(achs, today) && IsoDateKeys(achs) != []) ==>
              && r in IsoDateKeys(achs)
              && forall d :: d in IsoDateKeys(achs) && d != r ==> LexLess(d, r)
  {
    if |achs| > 0 && !HasDataFor(achs, today) then
      var unique := IsoDateKeys(achs);
      if |unique| > 0 then Latest(unique) else current
    else current
  }

  /** The latest date is the only date key no other date key follows. */
  lemma LatestIsUnique(keys: seq<string>, d: string)
    requires keys != [] && d in keys
    requires forall e :: e in keys && e != d ==> LexLess(e, d)
    ensures d == Latest(keys)
  {
    var l := Latest(keys);
    if d != l {
      LexLessAsymmetric(d, l);
      assert false;
    }
  }

  /** The dashboard's mutable state over the two tables it was given. */
  class DashboardState {
    const plans: seq<PlanRow>
    const achievements: seq<AchievedRow>
    const userFilters: FilterSet
    var activeFilters: FilterSet
    var selectedDate: string

    /** The initial state: the seven bar fields empty under the permission
        filters, and today selected. */
    constructor(plans: seq<PlanRow>, achievements: seq<AchievedRow>, userFilters: FilterSet, today: string)
      ensures this.plans == plans && this.achievements == achievements && this.userFilters == userFilters
      ensures activeFilters == InitialFilters(userFilters)
      ensures selectedDate == today
    {
      this.plans := plans;
      this.achievements := achievements;
      this.userFilters := userFilters;
      activeFilters := InitialFilters(userFilters);
      selectedDate := today;
    }

    /** `filteredPlans` of the current state. */
    function FilteredPlans(): (r: seq<PlanRow>)
      reads this
      ensures forall row :: row in r <==> row in plans && Matches(row, activeFilters)
      ensures IsSubsequence(r, plans)
      ensures forall row :: multiset(r)[row] == if Matches(row, activeFilters) then multiset(plans)[row] else 0
    {
      FilterPlans(plans, activeFilters)
    }

    /** `currentViewData` of the current state: one joined row per kept plan,
        the plan unchanged, the cells of its first achievement on the selected
        date or zeros. */
    function ViewData(): (r: seq<KpiRow>)
      reads this
      ensures |r| == |FilteredPlans()|
      ensures forall i :: 0 <= i < |r| ==> r[i].plan == FilteredPlans()[i]
      ensures forall i, j :: 0 <= i < |r| && FirstMatchAt(achievements, Trim(FilteredPlans()[i].salesmanNo), selectedDate, j) ==> r[i].ach == achievements[j].ach
      ensures forall i :: 0 <= i < |r| && NoMatch(achievements, Trim(FilteredPlans()[i].salesmanNo), selectedDate) ==> r[i].ach == ZeroCells
    {
      CurrentViewData(FilteredPlans(), achievements, selectedDate)
    }

    /** `updateFilter(key, val)`: one field takes the new value, every other
        filter and the selected date stay as they were. */
    method UpdateFilter(key: Field, val: string)
      modifies this
      ensures activeFilters == old(activeFilters)[key := val]
      ensures selectedDate == old(selectedDate)
    {
      activeFilters := activeFilters[key := val];
    }

    /** `handleClearFilters`: the filters return to the permission values on the
        seven bar fields; the selected date stays. */
    method ClearFilters()
      modifies this
      ensures activeFilters == ClearedFilters(userFilters)
      ensures selectedDate == old(selectedDate)
    {
      activeFilters := ClearedFilters(userFilters);
    }

    /** The auto-select effect, run with the clock's date `today`. */
    method AutoSelectLatestDate(today: string)
      modifies this
      ensures selectedDate == AutoSelectedDate(achievements, today, old(selectedDate))
      ensures activeFilters == old(activeFilters)
    {
      if |achievements| > 0 {
        if !HasDataFor(achievements, today) {
          var uniqueDates := IsoDateKeys(achievements);
          if |uniqueDates| > 0 {
            selectedDate := Latest(uniqueDates);
          }
        }
      }
    }
  }
}
