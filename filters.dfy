/** The dashboard's filter engine (components/EVPMDashboard.tsx): the plan rows
    that pass the active filters, and the options offered by each filter
    dropdown, computed from the permission filters and every other active filter. */
module Filters {
  import opened Basics
  import opened Records

  /** Field name to selected value. A field with no entry, or with the value "",
      is unconstrained. */
  type FilterSet = map<Field, string>

  /** The row test of `filteredPlans` and `getOptions`: every filter with a non-empty value equals the row's text in that column. */
  predicate Matches(row: PlanRow, f: FilterSet) {
    forall k :: k in f && f[k] != "" ==> row.Get(k) == f[k]
  }

  /** `filteredPlans`: the plan rows that pass every non-empty filter, in their order. */
  function FilterPlans(plans: seq<PlanRow>, f: FilterSet): (r: seq<PlanRow>)
    ensures IsSubsequence(r, plans)
    ensures forall row :: row in r <==> row in plans && Matches(row, f)
    ensures forall row :: multiset(r)[row] == if Matches(row, f) then multiset(plans)[row] else 0
  {
    Filter(plans, row => Matches(row, f))
  }

  /** A filter set whose values are all empty keeps every plan row. */
  lemma NoActiveFilterKeepsAll(plans: seq<PlanRow>, f: FilterSet)
    requires forall k :: k in f ==> f[k] == ""
    ensures FilterPlans(plans, f) == plans
  {
    FilterKeepsAll(plans, row => Matches(row, f));
  }

  /** One step of the options loop: the rows whose `key` column equals `val`. */
  function FilterField(rows: seq<PlanRow>, key: Field, val: string): seq<PlanRow> {
    Filter(rows, (row: PlanRow) => row.Get(key) == val)
  }

  /** The active filters other than the one on `target`. */
  function Without(f: FilterSet, target: Field): (r: FilterSet)
    ensures target !in r
    ensures forall k :: k in r <==> k in f && k != target
    ensures forall k :: k in r ==> r[k] == f[k]
  {
    map k | k in f && k != target :: f[k]
  }

  /** Narrowing by one more non-empty filter is filtering by the extended set. */
  lemma FilterFieldExtends(rows: seq<PlanRow>, a: FilterSet, key: Field, val: string)
    requires key !in a && val != ""
    ensures FilterField(FilterPlans(rows, a), key, val) == FilterPlans(rows, a[key := val])
  {
    var ext := a[key := val];
    forall row: PlanRow
      ensures Matches(row, ext) == (Matches(row, a) && row.Get(key) == val)
    {
      if Matches(row, a) && row.Get(key) == val {
        forall k | k in ext && ext[k] != "" ensures row.Get(k) == ext[k] {
          if k != key {
            assert k in a && a[k] == ext[k];
          }
        }
      }
      if Matches(row, ext) {
        assert key in ext && ext[key] != "";
        forall k | k in a && a[k] != "" ensures row.Get(k) == a[k] {
          assert k in ext && ext[k] == a[k];
        }
      }
    }
    FilterFilter(rows, row => Matches(row, a), (row: PlanRow) => row.Get(key) == val, row => Matches(row, ext));
  }

  /** Adding an empty filter changes nothing. */
  lemma FilterEmptyEntry(rows: seq<PlanRow>, a: FilterSet, key: Field)
    requires key !in a
    ensures FilterPlans(rows, a[key := ""]) == FilterPlans(rows, a)
  {
    var ext := a[key := ""];
    forall row: PlanRow | row in rows ensures Matches(row, ext) == Matches(row, a) {
      if Matches(row, a) {
        forall k | k in ext && ext[k] != "" ensures row.Get(k) == ext[k] {
          assert k in a && a[k] == ext[k];
        }
      }
      if Matches(row, ext) {
        forall k | k in a && a[k] != "" ensures row.Get(k) == a[k] {
          assert k in ext && ext[k] == a[k];
        }
      }
    }
    FilterSame(rows, row => Matches(row, ext), row => Matches(row, a));
  }

  /** The rows the options of `target` are read from. */
  function OptionRows(plans: seq<PlanRow>, userFilters: FilterSet, active: FilterSet, target: Field): seq<PlanRow> {
    FilterPlans(FilterPlans(plans, userFilters), Without(active, target))
  }

  lemma OptionRowsMembers(plans: seq<PlanRow>, userFilters: FilterSet, active: FilterSet, target: Field, v: string)
    ensures v in UniqueValues(OptionRows(plans, userFilters, active, target), target) <==>
              exists row :: row in plans && Matches(row, userFilters)
                            && Matches(row, Without(active, target)) && row.Get(target) == v
  {
    var rows := OptionRows(plans, userFilters, active, target);
    assert forall row :: row in rows <==> row in plans && Matches(row, userFilters) && Matches(row, Without(active, target));
  }

  /** The loop of `getOptions`: narrow `permitted` by every non-empty active
      filter except the one on `target`, one key at a time. */
  method NarrowExcept(permitted: seq<PlanRow>, active: FilterSet, target: Field)
    returns (baseData: seq<PlanRow>)
    ensures baseData == FilterPlans(permitted, Without(active, target))
  {
    baseData := permitted;
    var pending := active.Keys;
    ghost var applied: FilterSet := map[];
    NoActiveFilterKeepsAll(permitted, applied);
    while pending != {}
      invariant pending <= active.Keys
      invariant forall k :: k in applied <==> k in active && k !in pending && k != target
      invariant forall k :: k in applied ==> applied[k] == active[k]
      invariant baseData == FilterPlans(permitted, applied)
      decreases pending
    {
      var key :| key in pending;
      pending := pending - {key};
      if key == target {
        continue;
      }
      if active[key] == "" {
        FilterEmptyEntry(permitted, applied, key);
        applied := applied[key := ""];
        continue;
      }
      FilterFieldExtends(permitted, applied, key, active[key]);
      baseData := FilterField(baseData, key, active[key]);
      applied := applied[key := active[key]];
    }
    assert applied == Without(active, target);
  }

  /** `getOptions(targetKey)`: start from the plans allowed by the permission
      filters, narrow by every non-empty active filter except the one on
      `target`, and collect the distinct values of the `target` column. */
  method GetOptions(plans: seq<PlanRow>, userFilters: FilterSet, active: FilterSet, target: Field)
    returns (options: seq<string>)
    ensures NoDuplicates(options)
    ensures forall v :: v in options <==>
              exists row :: row in plans && Matches(row, userFilters)
                            && Matches(row, Without(active, target)) && row.Get(target) == v
  {
    var permitted := FilterPlans(plans, userFilters);
    var baseData := NarrowExcept(permitted, active, target);
    options := UniqueValues(baseData, target);
    forall v ensures v in options <==>
              exists row :: row in plans && Matches(row, userFilters)
                            && Matches(row, Without(active, target)) && row.Get(target) == v
    {
      OptionRowsMembers(plans, userFilters, active, target, v);
    }
  }

  /** The options for a field never depend on the value currently selected in that
      same field. */
  lemma OptionsIgnoreOwnFilter(plans: seq<PlanRow>, userFilters: FilterSet, active: FilterSet, target: Field, val: string)
    ensures OptionRows(plans, userFilters, active[target := val], target) == OptionRows(plans, userFilters, active, target)
  {
    assert Without(active[target := val], target) == Without(active, target);
  }
}
