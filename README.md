# EVPM dashboard and sign-in: a Dafny model

This project models the logic of two React components of the EVPM sales-performance
app.

**The dashboard** (`components/EVPMDashboard.tsx`) works over two tables:
- plan rows, one per salesman, holding the monthly targets for five KPIs (GSV, ECO, PC, LPC, MVS);
- achievement rows, one per salesman and day.

From them it computes:
- the plan rows kept by the active filters;
- the join of each kept plan with its achievement for the selected date;
- the ten plan/actual totals;
- the per-channel breakdown;
- the top and bottom five distributors;
- the per-day chart series;
- the options of each filter dropdown.

It keeps two pieces of state:
- `activeFilters`, seeded from the user's permission filters;
- `selectedDate`, moved to the latest date with data when today has none.

**The sign-in screen** (`components/Login.tsx`) builds the identity lists (salesmen, distributors, staff) and searches them. It then decides a login:
- the maintenance account;
- the missing role and identity errors;
- the salesman-to-distributor account lookup;
- the stored-credential match;
- the demo password;
- the row-level-security filters the session carries into the dashboard.

The modules follow the program's structure:
- **Basics and Text**: the JavaScript array and string primitives the code relies on (`find`, `filter`, de-duplication through a `Set`, `trim`, ASCII `toLowerCase`, `includes`, `split(sep)[0]`, string order).
- **Records**: the rows.
- **Filters**: the row filter and the dropdown options.
- **Join**: the merge of plan and achievement rows.
- **Aggregates**: the totals.
- **Channels**: the channel breakdown.
- **Rankings**: the distributor rankings.
- **Series**: the daily chart.
- **Dashboard**: the stateful component.
- **Login**: the sign-in screen.

Where the code mutates an accumulator in a loop, the model is a method with a `while` loop:
- `forEach` into an object or a `Map`;
- `reduce` into `acc[key]`;
- reassigning `baseData`.

Each such method is proved against a specification function: per-key totals, a partition of the aggregate, or the first occurrence per key. The component state is a class whose methods update `activeFilters` and `selectedDate`.

Inputs from outside the code are parameters:
- the clock: the `today` of the auto-select effect, and the initial selected date;
- the key of the KPI selectors.

Some behaviours of the code worth knowing, which the model keeps:
- The join uses the selected date as typed. It does not fall back to the nearest earlier date with data.
- The series carries no pacing targets and is not cut at the report date.
- The distributors are ranked by their summed achievement. They are not ranked by a percentage of plan.
- The bottom five exclude groups whose summed achievement is not positive, not groups without a plan.

## Model

| member | source | states |
|---|---|---|
| Basics.FindFirst | components/EVPMDashboard.tsx:205-208 | `find` returns the first index satisfying the predicate, and none exactly when no element does |
| Basics.Filter | components/EVPMDashboard.tsx:198 | `filter` keeps, in order, exactly the elements satisfying the predicate, each with its multiplicity |
| Basics.Distinct | components/EVPMDashboard.tsx:177-181 | `Array.from(new Set(..))` has no duplicates and exactly the elements of its input |
| Basics.FirstSeenKeysSnoc | components/EVPMDashboard.tsx:276-278 | adding one element to the input appends its key to the first-seen key list exactly when the key is new |
| Basics.FirstSeenKeysMembers | components/EVPMDashboard.tsx:276-278 | the first-seen key list of a sequence has no duplicates and holds exactly the keys of its elements |
| Basics.FilterFilter | components/EVPMDashboard.tsx:248-253 | filtering twice equals filtering once by the conjunction |
| Text.TrimCore | components/EVPMDashboard.tsx:204 | `trim` removes exactly the leading and trailing JavaScript whitespace and leaves an inner core that starts and ends with non-space |
| Text.ContainsOccurs | components/EVPMDashboard.tsx:207 | `includes` holds iff the needle occurs at some index |
| Text.BeforeFirstSpec | components/EVPMDashboard.tsx:179 | `split(sep)[0]` is the longest prefix in which the separator does not start, ending at the first occurrence or at the end |
| Text.BeforeFirstAt | components/Login.tsx:91 | when the first occurrence of the separator is at `n`, `split(sep)[0]` is the first `n` characters |
| Text.LexLessIsStrictTotalOrder | components/EVPMDashboard.tsx:181 | the string order of the default `sort` is irreflexive, transitive and total |
| Text.LowerIdempotent | components/Login.tsx:62 | lower-casing twice equals lower-casing once |
| Text.ContainsTransitive | components/Login.tsx:62 | a string containing a string that contains a term contains the term |
| Records.UniqueValues | components/EVPMDashboard.tsx:255 | `getUniqueValues(rows, key)` lists each value of the field that some row has, once |
| Filters.FilterPlans | components/EVPMDashboard.tsx:197-199 | a plan row is kept iff every non-empty filter value equals the row's field; the result is an order-preserving subsequence of the plans |
| Filters.NoActiveFilterKeepsAll | components/EVPMDashboard.tsx:197-199 | with every filter value empty, all plan rows are kept |
| Filters.Without | components/EVPMDashboard.tsx:248-249 | skipping the target key leaves every other filter entry untouched |
| Filters.FilterFieldExtends | components/EVPMDashboard.tsx:248-253 | filtering by one more non-empty entry equals filtering by the extended filter set |
| Filters.FilterEmptyEntry | components/EVPMDashboard.tsx:250 | an empty filter value constrains nothing |
| Filters.OptionRowsMembers | components/EVPMDashboard.tsx:240-255 | an option value occurs iff some plan row passes the permission filters and every other active filter and has that value |
| Filters.NarrowExcept | components/EVPMDashboard.tsx:248-253 | the `forEach` over the active filters leaves the permitted plans filtered by every active entry except the target key |
| Filters.GetOptions | components/EVPMDashboard.tsx:240-256 | the loop that narrows `baseData` yields distinct options, each the target field of a plan passing the permission filters and all other active filters, and all such values |
| Filters.OptionsIgnoreOwnFilter | components/EVPMDashboard.tsx:248-249 | the rows the options of a field are drawn from, and so the options, do not depend on that field's own active value |
| Join.FindAchievement | components/EVPMDashboard.tsx:204-207 | the `find` returns the first achievement with the plan's trimmed salesman number whose `Days` contains the date, and none exactly when no achievement matches |
| Join.JoinRow | components/EVPMDashboard.tsx:203-217 | the plan fields are kept; the five achievement cells are the first matching achievement's, or all zero when none matches |
| Join.CurrentViewData | components/EVPMDashboard.tsx:202-219 | one joined row per filtered plan, in order, with the plan fields unchanged; the achievement cells come from the first achievement with the same trimmed salesman number whose `Days` contains the selected date, else all zero |
| Aggregates.AddRow | components/EVPMDashboard.tsx:260-266 | one reduce step adds the row's coerced value to each of the ten totals |
| Aggregates.ReduceAdds | components/EVPMDashboard.tsx:259-267 | the reduce (`Aggregates.Reduce`) from any start adds each column's sum over the rows |
| Aggregates.ComputeAggregates | components/EVPMDashboard.tsx:259-267 | each of the ten totals is the column sum over the joined rows, with NaN counted as 0; no rows give all zeros |
| Aggregates.AchPct | components/EVPMDashboard.tsx:283 | 0 when the plan is not positive; otherwise 100·actual/plan rounded half up |
| Channels.AccumulateChannel | components/EVPMDashboard.tsx:274-280 | one reduce step keeps the per-channel totals, the insertion order of channels and the partition of the totals |
| Channels.ToPoints | components/EVPMDashboard.tsx:281-284 | each group is copied and given its guarded rounded percentage |
| Channels.ReduceChannels | components/EVPMDashboard.tsx:274-280 | the reduce over all joined rows leaves one accumulator per distinct channel with its plan and actual sums; the key order is exactly the order in which the channels first appear in the rows |
| Channels.PointNames | components/EVPMDashboard.tsx:281 | the points are named by the distinct channels, once each |
| Channels.PointTotals | components/EVPMDashboard.tsx:281-284 | each point carries its channel's plan and actual sums and the guarded percentage of the two |
| Channels.PointSums | components/EVPMDashboard.tsx:281 | the points' plans and actuals add up to the totals over all rows |
| Channels.BreakdownOfAccs | components/EVPMDashboard.tsx:274-284 | the finished accumulator yields one point per distinct channel with its totals, summing to the aggregates |
| Channels.ChannelBreakdown | components/EVPMDashboard.tsx:270-285 | one point per distinct channel (empty channel as `Other`), in the order the channels first appear in the rows; plan and actual are that channel's sums, `achPct` the guarded percentage; the plans and the actuals of the points add up to the KPI's aggregate plan and actual |
| Rankings.AccumulateDist | components/EVPMDashboard.tsx:290-295 | one reduce step keeps each distributor's running sum and the insertion order |
| Rankings.GroupByDistributor | components/EVPMDashboard.tsx:290-295 | one group per distinct distributor (empty as `Unknown`), each holding its summed achievement, in the order the distributors first appear in the rows |
| Rankings.Insert | components/EVPMDashboard.tsx:296 | insertion adds exactly the one group |
| Rankings.InsertSorted | components/EVPMDashboard.tsx:296 | inserting into a sequence in comparator order keeps it in that order |
| Rankings.Sort | components/EVPMDashboard.tsx:296 | the sort is a permutation of its input |
| Rankings.SortSorted | components/EVPMDashboard.tsx:296 | the sort yields the groups in the comparator's value order |
| Rankings.TakeSorted | components/EVPMDashboard.tsx:296 | the first five of a sorted sequence are sorted |
| Rankings.Take5 | components/EVPMDashboard.tsx:296 | `slice(0, 5)` is the prefix of length min(5, n) |
| Rankings.TakeOfSorted | components/EVPMDashboard.tsx:296 | the first five of the sorted groups are real, distinct groups |
| Rankings.LeftOutOfSorted | components/EVPMDashboard.tsx:296 | a group left out of the first five means five were taken, all ranked before it |
| Rankings.TopDistributors | components/EVPMDashboard.tsx:288-297 | at most five, non-increasing by value, distinct distributors with their sums; a distributor left out means five were taken, each with at least its value |
| Rankings.Positive | components/EVPMDashboard.tsx:307 | exactly the groups with a positive value, a sub-multiset of the groups |
| Rankings.BottomDistributors | components/EVPMDashboard.tsx:299-308 | at most five, non-decreasing, distinct distributors with positive sums; a positive distributor left out means five were taken, each with at most its value |
| Series.AllowedSalesmen | components/EVPMDashboard.tsx:223 | the set of trimmed salesman numbers of the filtered plans |
| Series.Relevant | components/EVPMDashboard.tsx:224 | an order-preserving subsequence holding exactly the achievements of an allowed salesman, each as many times as in the input |
| Series.AccumulateDay | components/EVPMDashboard.tsx:226-232 | one loop step keeps each day's running sum, the insertion order of days and the total of dated achievements |
| Series.InsertByDate | components/EVPMDashboard.tsx:233-235 | insertion adds exactly the one point |
| Series.InsertByDateAscending | components/EVPMDashboard.tsx:235 | inserting a point with a new date into an ascending series keeps it ascending |
| Series.SortByDate | components/EVPMDashboard.tsx:233-235 | the sort is a permutation of its input |
| Series.SortByDateAscending | components/EVPMDashboard.tsx:235 | points with distinct dates come out strictly ascending by date |
| Series.SortByDateSum | components/EVPMDashboard.tsx:233-235 | sorting keeps the sum of the values |
| Series.Entries | components/EVPMDashboard.tsx:233-234 | one point per listed day, in the list's order, carrying that day's accumulated total |
| Series.SeriesOfAccs | components/EVPMDashboard.tsx:233-235 | the entries of the finished accumulator have distinct dates and sort into the daily series |
| Series.DailySeries | components/EVPMDashboard.tsx:222-236 | strictly ascending dates, one point per day of a dated relevant achievement, each valued at that day's KPI sum; the values add up to the KPI total of those achievements |
| Dashboard.InitialFilters | components/EVPMDashboard.tsx:152-161 | the seven bar fields are present, every permission filter overrides them, other entries are empty |
| Dashboard.InitialFiltersKeepPermissions | components/EVPMDashboard.tsx:152-161 | a row passing the initial filters passes every permission filter |
| Dashboard.ClearedFilters | components/EVPMDashboard.tsx:319-329 | exactly the seven bar fields, each at its permission value or empty |
| Dashboard.ClearedFiltersKeepBarPermissions | components/EVPMDashboard.tsx:319-329 | after a reset, a permission filter on a bar field still holds |
| Dashboard.ClearFiltersDropsSalesmanFloor | components/EVPMDashboard.tsx:319-329 | a reset drops a `SALESMANNO` permission: a row of another salesman hidden initially passes after a reset |
| Dashboard.ViewFlags | components/EVPMDashboard.tsx:152-168 | `isSalesman` (`Dashboard.IsSalesman`) implies `isRestrictedView` (`Dashboard.IsRestrictedView`); under the initial filters a salesman sees only rows of that salesman number, and a restricted view only rows sharing the distributor or the salesman number |
| Dashboard.DateKeys | components/EVPMDashboard.tsx:179 | the part of each `Days` before the first `T`, one per achievement |
| Dashboard.IsoDateKeys | components/EVPMDashboard.tsx:177-181 | the distinct date keys of the form `YYYY-MM-DD` |
| Dashboard.Latest | components/EVPMDashboard.tsx:181-184 | the last element after sorting is a key that every other key precedes |
| Dashboard.LatestIsUnique | components/EVPMDashboard.tsx:181-184 | that latest key is the only key every other key precedes |
| Dashboard.AutoSelectedDate | components/EVPMDashboard.tsx:171-189 | with achievements, none whose `Days` contains today (`Dashboard.HasDataFor`, line 174) and some ISO date key, the selection becomes the latest such key; otherwise it is unchanged |
| Dashboard.DashboardState.constructor | components/EVPMDashboard.tsx:152-164 | the state starts with the initial filters and today selected |
| Dashboard.DashboardState.FilteredPlans | components/EVPMDashboard.tsx:197-199 | the plans kept under the current filters: exactly the plan rows passing every non-empty active filter, in their order, each as many times as in the plans |
| Dashboard.DashboardState.ViewData | components/EVPMDashboard.tsx:202-219 | one joined row per kept plan, in order, with the plan unchanged; its cells are those of the first achievement with the plan's trimmed salesman number whose `Days` contains the selected date, else all zero |
| Dashboard.DashboardState.UpdateFilter | components/EVPMDashboard.tsx:313-316 | one filter takes the new value; the other filters and the date stay |
| Dashboard.DashboardState.ClearFilters | components/EVPMDashboard.tsx:319-329 | the filters become the cleared filters; the date stays |
| Dashboard.DashboardState.AutoSelectLatestDate | components/EVPMDashboard.tsx:171-189 | the date becomes the auto-selected date; the filters stay |
| Login.SalesmanRow | components/Login.tsx:94 | the `find` returns the first data row whose trimmed salesman number equals the id, and none exactly when there is no such row |
| Login.Credential | components/Login.tsx:118-124 | the first stored user whose trimmed, lower-cased name or user name equals the account and whose trimmed password equals the typed one (`Login.CredentialMatches`), and none exactly when no stored user matches |
| Login.Rls | components/Login.tsx:147-150 | no filters for Staff, Admin or no role; RSM, SM and ASM get exactly one filter, on `RSM`, `SM` and `Dist Name` respectively, holding the identity; a salesman gets exactly one filter, on `SALESMANNO`, holding the number read from the identity |
| Login.Target | components/Login.tsx:87-113 | the identity is the account for every role except the salesman; a salesman's account is the distributor of the first row with that trimmed number, none when that row is missing or has no distributor |
| Login.LoginDecision | components/Login.tsx:65-167 | the maintenance password for Admin logs in first; then a missing role, and a missing identity for any role but Admin, are refused, and those are the only cases refused for those reasons; a session is named by the identity, carries the role's filters, and a salesman's is titled `DSF` |
| Login.LoginAuthenticates | components/Login.tsx:118-143 | the first stored user matching the account and password makes the session; only without one does the demo password log in anyone but Staff, as a demo user with role `admin` for Admin/RSM and `user` otherwise |
| Login.StaffNeedsStoredUser | components/Login.tsx:134 | a Staff login always goes through a stored credential |
| Login.LoginSucceeds | components/Login.tsx:65-163 | a login gets in exactly when it uses the maintenance account, or when it has a role and an identity (optional for Admin), the account resolves, and either a stored user matches the account and password or the demo password is used outside Staff |
| Login.LoginRefusals | components/Login.tsx:96-165 | a distributor-not-found refusal happens iff a salesman's account cannot be resolved; a wrong-password refusal iff no stored user matches and the demo password does not apply |
| Login.HandleLogin | components/Login.tsx:65-167 | the step-by-step handler returns exactly the login decision |
| Login.SessionViews | components/Login.tsx:147-163 | a salesman session whose identity yields a non-empty salesman number opens the single-salesman restricted view, an ASM session the restricted distributor view, and RSM, SM, Staff and Admin sessions the full view; for a salesman identity that yields an empty number nothing is promised, since the session then carries an empty `SALESMANNO` and sees the full dashboard |
| Login.CollectSalesmen | components/Login.tsx:43-48 | the `forEach` over the data leaves, in insertion order, exactly the entries of the first row of each salesman number with both fields present |
| Login.ListOfAccs | components/Login.tsx:49 | the values of the finished `Map` are the entries of the first such rows, in row order, and every first such row is listed |
| Login.SalesmanList | components/Login.tsx:41-50 | the `Map`-based loop yields exactly the reference list of entries: one `number - name` entry per salesman number with both fields present, taken from its first such row, in first-seen order |
| Login.FirstEntriesMembers | components/Login.tsx:44-48 | a string is listed iff it is the entry of the first row of some salesman number with both fields present |
| Login.EveryEligibleHasFirst | components/Login.tsx:44-48 | every row with number and name has a first such row of its number, so its salesman is listed |
| Login.SalesmanIdOfEntry | components/Login.tsx:91 | reading back a list entry whose number has no space recovers the trimmed number |
| Login.EntryReadBackOverlap | components/Login.tsx:91 | a number that contains no " - " but ends in " -" is read back cut short, so the no-space condition cannot be weakened to "no separator" |
| Login.StaffList | components/Login.tsx:35-39 | one display name per user titled `Staff`, in the users' order |
| Login.StaffListMembers | components/Login.tsx:35-39 | a name is listed exactly when some user titled `Staff` shows it, and the list is no longer than the users |
| Login.AsmList | components/Login.tsx:32 | each distributor of the data once |
| Login.FilteredList | components/Login.tsx:53-63 | without a term, the role's whole list or nothing; with a term, exactly the non-empty entries of the searched list (`Login.SearchSource`: ASM list, Staff list, else the salesman list) that contain it ignoring case, in order, each as many times as in the searched list |
| Login.SearchIgnoresCase | components/Login.tsx:53-62 | for every role and every term, the lower-cased term gives the same list |
| Login.SearchNarrows | components/Login.tsx:62 | every hit for a longer term containing a shorter one is a hit for the shorter one |

## Left out
- Rendering is not modelled: the JSX, the charts, `StatCard`, `TimePieWidget`, `CustomTooltip`, `KpiFilterButtons` and `getLabel`.
- `calculateTimeGone` and `formatNumber` are not part of this model. They feed only the displayed texts.
- `utils.getUniqueValues` is not part of this model. It is taken to list distinct values in first-seen order, and only distinctness and membership are stated.
- The clock is a parameter: the `today` of the auto-select effect and the date the state starts with.
- Every column is held as the text `String(value)` would give. `String(undefined)` for a missing column is not modelled.
- Series.DailySeries, Channels.ChannelBreakdown, Rankings.GroupByDistributor, Filters.FilterPlans, Filters.GetOptions, Login.Target, Login.Credential and Login.StaffList: the source tests raw cell values for truthiness. Examples are `Days` when dating an achievement, `Channel` and `Dist Name` when grouping, a filter value when deciding whether it applies, a salesman row's `Dist Name`, and a user's `name`. A cell holding null, the number 0 or `false` is empty there: it falls back to `Other`, `Unknown` or the user name, or the filter is skipped. The model holds such a cell as the non-empty text `String(value)` gives, so it treats it as present. Only the empty text is empty in the model.
- KPI cells are integers or NaN. String-to-number coercion, fractional values and floating-point rounding are not modelled.
- Aggregates.AchPct: rounds half up in integer arithmetic, which matches `Math.round` for the positive plans where it applies but not the float quotient.
- Letter case: only ASCII A-Z is lower-cased. The model compares strings character by character in code-point order. The auto-select `sort()` compares UTF-16 code units; the two orders differ only for characters above U+FFFF, which `YYYY-MM-DD` keys do not contain.
- Series.DailySeries: the points are ordered by `Ascending(series, LexLess)`, code-point order. The source sorts with `localeCompare`, a locale collation that puts "a" before "B" and accented letters beside their base letter. The two agree on `YYYY-MM-DD` keys only, so for other date texts the model's order is not the source's.
- Channels.ChannelBreakdown: the group order is the first-seen order of the channels. `Object.values` lists integer-like keys first, and that order is not modelled.
- Channels.ChannelBreakdown: the accumulator is a plain dictionary. In the source it is a JavaScript object, so a channel named like an inherited member (`constructor`, `toString`, `valueOf`) finds that member instead of a fresh group: its sums become NaN or text and `Object.values` leaves the group out, and a channel named `__proto__` is lost. None of this is modelled.
- Rankings.GroupByDistributor: the same object-key behaviour applies to a distributor named like an inherited member or `__proto__`, and so to Rankings.TopDistributors and Rankings.BottomDistributors. It is not modelled.
- Rankings.GroupByDistributor: the groups are stated in first-seen order. `Object.values` lists integer-like keys (a distributor named "123") first, in ascending numeric order; that order is not modelled. It reaches Rankings.TopDistributors and Rankings.BottomDistributors only through the order among equal values, which they do not state.
- Series.DailySeries: the same applies to a date key named like an inherited member: `constructor` would start from a function and yield a text value. It is not modelled.
- Rankings.TopDistributors: the order among equal values is not stated, only the value order. The same holds for Rankings.BottomDistributors and Rankings.Sort, which do not state that the sort is stable.
- Dashboard.Latest: taken to be the maximum key. The full sorted list that `sort()` builds is not modelled.
- Re-running the effects when their inputs change is not modelled. Each operation is a method applied to the current state.
- The `rsmList` and `smList` dropdowns, setup mode, `syncUrl`/`setConfig`, the install prompt and the error texts are not modelled. Errors are a datatype.
- Login.LoginDecision: the session holds only account, name, role, job title and filters. Other columns of a stored user, such as its password, are spread into the session by the source. A stored column named like a filter field also survives when the role adds no such filter. Neither is modelled.
- Login.SalesmanList: tests the number and name for non-empty text. A numeric 0 salesman number, which is falsy in the source, is not modelled.
- Login.SalesmanList: the `Map` is keyed on the raw cell, so a number stored once as the number 7 and once as the text "7" gives two entries in the source. The model holds every cell as text and lists that salesman once.
- Login.FilteredList: an entry that is not text, such as a numeric distributor name in the ASM list, makes `toLowerCase` throw in the source. The model's entries are always text, so that failure is not modelled.
- `App.tsx`, which consumes the session and the permission filters, is not part of this model.
