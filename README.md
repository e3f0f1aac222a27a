# Epidemiology table reconciliation, modelled in Dafny

This project models three table-shaped pieces of an epidemiology data
pipeline, plus the pandas operations they are built from.

- **Peru case-line reconciliation** (`PeruDataSource.parse_dataframes`). It does the following, in order:
  - projects and renames the case-line columns through a fixed adapter;
  - translates sex labels;
  - counts the case records per date, location, age and sex;
  - outer-merges the confirmed and deceased counts;
  - drops undated records;
  - stamps the country `PE`;
  - normalises names and inner-joins them with a province gazetteer;
  - rolls districts up to their region by summation;
  - rewrites colliding district names as `district, province` match strings;
  - returns the regional records followed by the district records.
- **Australian state feed** (`Covid19AuPipeline.parse_dataframes`):
  - a nested loop flattens the transposed feed into one record per (date, state) cell;
  - a cell's counter list fills `confirmed`, then `deceased`, `recovered` and `tested`, as far as it reaches;
  - `grouped_diff` turns the cumulative counters into daily counts within each (country, state) group, in date order.
- **Row-table operations pinned down by tests**, each written as an output file in the original:
  - `table_cross_product`;
  - `table_join` with "inner" or "outer", where "outer" means a pandas left merge;
  - `table_group_tail`, which keeps the latest row of every key.

Modules:

| module | file | contents |
|---|---|---|
| `Frames` | `frames.dfy` | Records as `map<string, Value>`, where a missing key is a missing (NaN) cell. Column operations, `dropna`, `DataFrame.merge` (inner, left, outer), `groupby(keys).sum()`, and blocks laid end to end. |
| `Cumulative` | `cumulative.dfy` | Day-over-day differences, running totals, string order, and `grouped_diff`. |
| `AuCovid19Au` | `au_covid_19_au.dfy` | ISO dates, the flattening loop, the parser, and the re-accumulation theorem. |
| `PeAuthority` | `pe_authority.dfy` | The Peru pipeline step by step, the disambiguation loop, and the promise about the output table. |
| `MemoryEfficient` | `memory_efficient.dfy` | Cross product, join and group tail, each as a method that appends output rows. Each is proved equal to the reference the tests compare with. |

Helpers whose bodies are not part of this model are parameters:
- `fuzzy_text` is a function `string -> string`;
- `datetime_isoformat(x, "%d/%m/%Y")` is a function `string -> Option<string>`.

The bodies of `convert_cases_to_time_series`, `table_multimerge`,
`table_rename` and `grouped_diff` are not part of this model. Each is given a
concrete definition, and that definition is an assumption about what the
routine does. "## Left out" lists the choices those definitions make. The
operations of the memory-efficient library are modelled by the relation
their tests assert.

## Model

| member | source | states |
|---|---|---|
| Frames.DropMissing | src/pipelines/epidemiology/pe_authority.py:63 | Every kept record has the column, and an input record is kept exactly when it has it. |
| Frames.DropMissingMultiplicity | src/pipelines/epidemiology/pe_authority.py:63 | `dropna` keeps every copy of a record that has the column and no copy of one that lacks it. |
| Frames.Where | src/pipelines/epidemiology/pe_authority.py:63 | A filter keeps exactly the records satisfying its predicate, and is no longer than its input. |
| Frames.WhereMultiplicity | src/pipelines/epidemiology/pe_authority.py:63 | A filter keeps each matching record exactly as often as the input holds it, and no other record. |
| Frames.Partners | src/pipelines/epidemiology/pe_authority.py:74 | A left record's merge partners are exactly the right records agreeing with it on every join column, missing matching missing. |
| Frames.PartnersMultiplicity | src/pipelines/epidemiology/pe_authority.py:74 | Each agreeing right record is a partner exactly as often as the right table holds it, so a merge makes one record per agreeing pair. |
| Frames.MergeLeftwardMembers | src/pipelines/epidemiology/pe_authority.py:74 | A record of an inner or left merge is exactly a left record widened by a right record that agrees on the join columns. Under a left merge it may also be a partnerless left record on its own. Nothing else appears. |
| Frames.MergeLeftwardSound | src/test/test_memory_efficient.py:46-47 | Every merged record is made from some left record: widened by one of its partners, or alone when a left merge finds none. |
| Frames.MergeLeftwardComplete | src/test/test_memory_efficient.py:46-47 | Every record made from a left record in that way is in the merge. |
| Frames.MergeLeftwardAppend | src/test/test_memory_efficient.py:46-47 | A merge distributes over splitting the left table: merging `a + b` gives the merge of `a` followed by that of `b`. |
| Frames.MergeLeftwardCount | src/test/test_memory_efficient.py:46-47 | The merge's length is the number of partners summed over the left records. A left merge has at least one record per left record. |
| Frames.OuterMergeMembers | src/pipelines/epidemiology/pe_authority.py:60 | An outer merge reflects both tables. Every left record is there, widened by each partner or alone. Every agreeing pair is there. Every right record without a left partner is there on its own, at least as often as the right table holds it. No other record appears. |
| Frames.GroupSumOnePerGroup | src/pipelines/epidemiology/pe_authority.py:80-85 | `groupby(keys).sum()` has one record per group: no two share a key, each key is some input record's key, and every fully keyed input record finds its group. |
| Frames.GroupKeys | src/pipelines/epidemiology/pe_authority.py:82 | The group keys are distinct. Every fully keyed record's key is among them, and each comes from some record of the group. |
| Frames.GroupSumKeys | src/pipelines/epidemiology/pe_authority.py:80-85 | There is one grouped record per group key, in key order, and it carries that key in full. |
| Frames.GroupSumTotals | src/pipelines/epidemiology/pe_authority.py:80-85 | A grouped record holds only key and value columns. Each value column is the sum over its group, where a missing cell adds 0. |
| Frames.GroupSumConserves | src/pipelines/epidemiology/pe_authority.py:80-85 | Grouping neither loses nor invents an amount: the summed column adds up to the column's sum over all fully keyed input records. |
| Cumulative.RunningTotalsOfDeltas | src/pipelines/epidemiology/au_covid_19_au.py:36 | Re-accumulating day-over-day differences gives back the cumulative series. |
| Cumulative.DeltasOfRunningTotals | src/pipelines/epidemiology/au_covid_19_au.py:36 | Differencing running totals gives back the daily series. |
| Cumulative.DeltasExample | src/pipelines/epidemiology/au_covid_19_au.py:36 | Cumulative 10, 15, 15, 20 differences to 10, 5, 0, 5 and accumulates back. |
| Cumulative.LatestBefore | src/pipelines/epidemiology/au_covid_19_au.py:36 | The previous record in date order is found within the record's own group, and none later in date order exists. When no earlier record of the group exists, none is returned. |
| Cumulative.DiffWithinGroup | src/pipelines/epidemiology/au_covid_19_au.py:36 | Differences never cross groups. A differenced value is either the record's own value, when no earlier record of its group exists, or its value minus that of the latest earlier record of the same group. Other columns are untouched. |
| Cumulative.PreviousInOrder | src/pipelines/epidemiology/au_covid_19_au.py:36 | In a group listed in date order, the record before position k is the one at position k - 1, and the first has none. |
| Cumulative.DiffInOrder | src/pipelines/epidemiology/au_covid_19_au.py:36 | In a group listed in date order, the k-th record's differenced value is the k-th day-over-day difference of the group's series. |
| Cumulative.GroupedDiffRoundTrip | src/pipelines/epidemiology/au_covid_19_au.py:36 | Within a group listed in date order, the differenced series is the day-over-day difference of the cumulative one. Re-accumulating it reproduces the cumulative values. |
| AuCovid19Au.IsoRoundTrip | src/pipelines/epidemiology/au_covid_19_au.py:22 | The ISO form `YYYY-MM-DD` of a valid date parses back to the date. |
| AuCovid19Au.PadInjective | src/pipelines/epidemiology/au_covid_19_au.py:22 | Zero-padding to a fixed width is injective on numbers that fit. |
| AuCovid19Au.ParsedIsIso | src/pipelines/epidemiology/au_covid_19_au.py:22 | A string that parses to a valid date is that date's ISO form. |
| AuCovid19Au.IsoOrdered | src/pipelines/epidemiology/au_covid_19_au.py:22 | Comparing ISO date strings as text orders the dates chronologically, in both directions. |
| AuCovid19Au.MakeRecord | src/pipelines/epidemiology/au_covid_19_au.py:21-32 | A cell's record has the cell's ISO date, `country_code` `AU` and its state code. `confirmed` is the first counter. `deceased`, `recovered` and `tested` are present exactly when the list is longer than 1, 2 and 3, and hold those counters. No other column appears. |
| AuCovid19Au.MetricsFormPrefix | src/pipelines/epidemiology/au_covid_19_au.py:25-32 | The counters present always form a prefix of the order confirmed, deceased, recovered, tested, one per list entry. |
| AuCovid19Au.BuildRecord | src/pipelines/epidemiology/au_covid_19_au.py:21-32 | The loop body's conditional dict updates build exactly the record of the cell. |
| AuCovid19Au.FlattenAt | src/pipelines/epidemiology/au_covid_19_au.py:17-33 | The flattened feed has dates × states records, date-major. The record of cell (i, j) sits at position i * number-of-states + j. |
| AuCovid19Au.FlattenCovers | src/pipelines/epidemiology/au_covid_19_au.py:17-33 | Every record of the flattened feed is the record of some cell (i, j), found at position i * number-of-states + j. Flattening makes up no record. |
| AuCovid19Au.StateGroupInOrder | src/pipelines/epidemiology/au_covid_19_au.py:17-36 | With distinct state codes, the records of one state, taken in chronological order of the dates, form its whole (country, state) group in date order. |
| AuCovid19Au.StateSeries | src/pipelines/epidemiology/au_covid_19_au.py:27-36 | Along that group, every record carries the counter, and the series is the state's cells' counter in chronological order. |
| AuCovid19Au.ParseDataframes | src/pipelines/epidemiology/au_covid_19_au.py:13-36 | The parser fails exactly when some cell is empty, and reports the first such cell in loop order. Otherwise it returns `grouped_diff` of the flattened records, grouped by country and state. |
| AuCovid19Au.DailyCountsReaccumulate | src/pipelines/epidemiology/au_covid_19_au.py:13-36 | For every state and every counter its cells carry, re-accumulating the output's daily counts in date order gives back the feed's cumulative counters. |
| PeAuthority.RenameRecordSpec | src/pipelines/epidemiology/pe_authority.py:40-45 | A renamed record has column c exactly when some adapter entry maps a present source column to c. Its value comes from the last such entry. |
| PeAuthority.PeruRename | src/pipelines/epidemiology/pe_authority.py:24-45 | Only the five canonical columns survive the adapter. Both date columns become `date`, and the district and province carry over under their new names. When both date columns are present, the death date wins; that tie-break is an assumption of this model. |
| PeAuthority.PeruRenameDate | src/pipelines/epidemiology/pe_authority.py:24-26 | `date` comes from the death date when only it is present, and from the result date when only that is. When both are present the death date wins, which is an assumption of this model. `date` is missing when neither is present. |
| PeAuthority.SexTranslated | src/pipelines/epidemiology/pe_authority.py:47-49 | The row count is unchanged and other columns are untouched. `MASCULINO` becomes `male` and `FEMENINO` becomes `female`. Every other label becomes missing. |
| PeAuthority.CaseCountsAreCounts | src/pipelines/epidemiology/pe_authority.py:52-57 | Each daily count is the number of case records with its date, location, age and sex. No two counts share those values, and every fully keyed case record is counted. |
| PeAuthority.MergeCountsKeepsBoth | src/pipelines/epidemiology/pe_authority.py:52-60 | The merge of the confirmed and deceased daily counts loses neither table. A confirmed count and the deceased count of the same date, location, age and sex become one record carrying both counts. A count with no partner is kept alone. Nothing else appears. |
| PeAuthority.OuterMergeCounts | src/pipelines/epidemiology/pe_authority.py:60 | The same holds for any two count tables of which one holds only `new_confirmed` and the other only `new_deceased`. |
| PeAuthority.CaseCountsCount | src/pipelines/epidemiology/pe_authority.py:52-57 | Each count record is fully keyed and its count is the number of case records in its group. |
| PeAuthority.CaseCountsCover | src/pipelines/epidemiology/pe_authority.py:52-57 | Every fully keyed case record's group has a count record. |
| PeAuthority.DatedAndStamped | src/pipelines/epidemiology/pe_authority.py:60-66 | After `dropna` and the stamp, every record has a date and `country_code` `PE`. Every dated record survives, stamped. |
| PeAuthority.GazetteerJoinSound | src/pipelines/epidemiology/pe_authority.py:70-74 | Every joined record is a data record whose normalised province is the normalised name of a gazetteer province, widened by that province's row. |
| PeAuthority.GazetteerJoinComplete | src/pipelines/epidemiology/pe_authority.py:70-74 | Every data record whose normalised province names a gazetteer province appears joined with that province's row. |
| PeAuthority.GazetteerTable | src/pipelines/epidemiology/pe_authority.py:62-77 | The step-by-step method returns the gazetteer table of its input. Every record of it is stamped `PE` and lies in a gazetteer province whose region code it carries. Every dated count record whose normalised province the gazetteer names appears in it, joined with that province. |
| PeAuthority.GazetteeredMembers | src/pipelines/epidemiology/pe_authority.py:62-77 | A record is in the gazetteer table exactly when it is a dated count record that has been stamped, had its date reformatted and its names normalised, and then been joined with the gazetteer entry its province names, without `subregion1_name`. |
| PeAuthority.JoinedRows | src/pipelines/epidemiology/pe_authority.py:70-77 | After the join and dropping `subregion1_name`, stamped records stay stamped and lie in the gazetteer. |
| PeAuthority.Subregion1Groups | src/pipelines/epidemiology/pe_authority.py:80-85 | The regional rollup has one record per (date, country, region, age, sex), and every fully keyed district record has its regional record. |
| PeAuthority.Subregion1Sums | src/pipelines/epidemiology/pe_authority.py:80-85 | Each regional metric is the sum of that metric over the district records of its group. |
| PeAuthority.Subregion1Records | src/pipelines/epidemiology/pe_authority.py:80-86 | Every regional record is stamped `PE`, has all its keys and metrics, and no `subregion2_name`. |
| PeAuthority.DistrictsMatchRollupInput | src/pipelines/epidemiology/pe_authority.py:80-91 | Renaming districts to match strings changes no regional total: each group's metric sums alike over the rollup input and the district records. |
| PeAuthority.DistrictRowsShape | src/pipelines/epidemiology/pe_authority.py:90-91 | District records are stamped, in the gazetteer, carry a blank `subregion2_name`, and no longer hold a bare colliding district name. |
| PeAuthority.DistrictOfSpec | src/pipelines/epidemiology/pe_authority.py:88-104 | A district record has a blank `subregion2_name`. Its `match_string` is the source's district name, qualified as `district, province` exactly when a collision rule names that district in that province. Every other column is the source's. |
| PeAuthority.ApplyRulesSpec | src/pipelines/epidemiology/pe_authority.py:95-104 | The disambiguation rewrites exactly the records some rule names, to `district, province`. Every other record is left as it is. |
| PeAuthority.ApplyRulesKeepsOtherColumns | src/pipelines/epidemiology/pe_authority.py:95-104 | The disambiguation touches only `match_string`: every other column keeps its presence and value. |
| PeAuthority.PeruRulesCommaFree | src/pipelines/epidemiology/pe_authority.py:95-101 | No district or province in the rule list contains a comma, so a rewritten match string can never be a bare rule district. |
| PeAuthority.MaskAssign | src/pipelines/epidemiology/pe_authority.py:102-104 | One masked assignment rewrites every record of the province whose match string is the district, and only those. |
| PeAuthority.Disambiguate | src/pipelines/epidemiology/pe_authority.py:95-104 | The nested loop leaves each record as the rule-by-rule rewrite of the original record. |
| PeAuthority.ApplyRulesIdempotent | src/pipelines/epidemiology/pe_authority.py:95-104 | Running the disambiguation a second time changes nothing. |
| PeAuthority.ApplyRulesLeavesNoCollision | src/pipelines/epidemiology/pe_authority.py:95-104 | After the disambiguation, no record carries a bare colliding district name. |
| PeAuthority.CollidingDistrictsSeparate | src/pipelines/epidemiology/pe_authority.py:95-104 | The same district under the two provinces of a rule ends with distinct match strings. |
| PeAuthority.SanLuisSeparates | src/pipelines/epidemiology/pe_authority.py:96 | `sanluis` in `lima` becomes `sanluis, lima`, and in `canete` becomes `sanluis, canete`. |
| PeAuthority.AssembledTable | src/pipelines/epidemiology/pe_authority.py:79-107 | The returned table puts the regional records (no `subregion2_name`) first and the district records (blank `subregion2_name`) after. All records are stamped `PE`. District records are in the gazetteer and free of collisions. Each regional record has every key and metric, one per group, and each metric is the sum over that region's district records. Every fully keyed district record has its regional record. |
| PeAuthority.ParseDataframes | src/pipelines/epidemiology/pe_authority.py:35-107 | The step-by-step method returns exactly the regional records of the gazetteer table of the merged daily counts, followed by that table's disambiguated district records. That table has every property of the `AssembledTable` row. |
| PeAuthority.ParsedIsParsedTable | src/pipelines/epidemiology/pe_authority.py:35-107 | The returned table has every property listed for `AssembledTable`. |
| PeAuthority.ParsedDistricts | src/pipelines/epidemiology/pe_authority.py:35-107 | The district records of the returned table are exactly the disambiguated joined records of the merged daily counts that have a date and a province the gazetteer names. None is lost and none is made up. |
| MemoryEfficient.CrossProduct | src/test/test_memory_efficient.py:83-132 | The header is the left header followed by the right one. The lines are the left-major pairing of the two tables' lines. |
| MemoryEfficient.CrossLinesAt | src/test/test_memory_efficient.py:98-115 | The cross product has `|left| * |right|` lines. The line at `i * |right| + j` is left line i followed by right line j. |
| MemoryEfficient.CrossLinesLength | src/test/test_memory_efficient.py:98-115 | The cross product has `|left| * |right|` lines. |
| MemoryEfficient.CrossProductExample | src/test/test_memory_efficient.py:84-115 | For the test's two tables the output lines are exactly the sixteen expected lines, `a,1,1,a` through `d,4,4,d`, in left-major order. |
| MemoryEfficient.TableJoin | src/test/test_memory_efficient.py:39-50 | The join's output equals the pandas merge the test compares with: inner for "inner", left for "outer". |
| MemoryEfficient.ReferenceHow | src/test/test_memory_efficient.py:77-81 | "inner" is compared with an inner merge and "outer" with a left merge, and only so. |
| MemoryEfficient.JoinRow | src/test/test_memory_efficient.py:44-47 | The rows written for one left row are that row widened by each agreeing right row, in right order. Under "outer", a row with no partner is written on its own. |
| MemoryEfficient.InnerJoinPairs | src/test/test_memory_efficient.py:77-78 | The inner join holds exactly the pairs of agreeing left and right rows, each as the left row widened by the right one. |
| MemoryEfficient.OuterJoinKeepsLeft | src/test/test_memory_efficient.py:80-81 | The "outer" join has at least one row per left row, and every left row is present, widened or alone. Every row comes from a left row. |
| MemoryEfficient.OuterJoinIsNotFullOuter | src/test/test_memory_efficient.py:46 | A right row with no partner is dropped by "outer" but kept by a full outer merge. |
| MemoryEfficient.TestedJoinColumns | src/test/test_memory_efficient.py:68-75 | The join columns are `key, date` exactly when both tables have a date, and `key` exactly when the right table has none. No join is tested when only the right table has a date. |
| MemoryEfficient.TestedJoinColumnsShared | src/test/test_memory_efficient.py:68-75 | Whenever a join is tested, its columns are in both tables. |
| MemoryEfficient.TailPositions | src/test/test_memory_efficient.py:174-176 | The kept positions increase, each is the last eligible row of its key, and every such row is kept. |
| MemoryEfficient.LatestSliceOnePerKey | src/test/test_memory_efficient.py:158-179 | The latest slice has exactly one row per key among eligible rows: rows with a key and, when the column exists, a `total_confirmed`. |
| MemoryEfficient.LatestSliceInOrder | src/test/test_memory_efficient.py:158-179 | The latest slice lists input rows at increasing positions, each the last eligible row of its key. |
| MemoryEfficient.LastOfKey | src/test/test_memory_efficient.py:174-176 | Every eligible row has a last eligible row of its key, at or after it. |
| MemoryEfficient.TailIsRecorded | src/test/test_memory_efficient.py:168 | After the first pass, an eligible row's key is recorded, and at that row's position exactly when it is the key's last eligible row. |
| MemoryEfficient.LastPositions | src/test/test_memory_efficient.py:168 | The first pass maps every key of an eligible row to the position of that key's last eligible row. |
| MemoryEfficient.GroupTail | src/test/test_memory_efficient.py:168-179 | The two-pass writer's output equals the test's reference: `dropna(subset=["total_confirmed"])` when the column exists, then `groupby(["key"]).tail(1)`. |

## Left out

- **I/O.** Reading the AU feed from its URL and reading `pe_provinces.csv` are not modelled. The model takes the transposed feed (dates, state codes, cells) and the gazetteer as inputs. The tests' temporary files, CSV writing and progress bars are not modelled either.
- **`src/pipelines/epidemiology/__init__.py`**: it only orchestrates pipelines, so it is not part of this model.
- **The CSV-to-JSON conversion test** (test_memory_efficient.py:134-156): it is about schema-driven cell formatting.
- **Test comparisons:** the tests compare line by line through `zip`, which stops at the shorter output. The model states full equality.
- **Join columns in the test:** the test's pandas merge has no `on` and so joins on all shared columns. The model joins on the columns passed to `table_join`. The two agree when the tables share only `key` and `date`.
- **Overlapping columns:** pandas renames non-join columns both tables have with `_x`/`_y` suffixes. The model widens a record with `l + r`, where the right value wins.
- **Row order:**
  - pandas may sort merge and groupby outputs;
  - the model keeps left order for merges and first-appearance order for groups;
  - `grouped_diff` keeps the input order.
- **Age binning:** `convert_cases_to_time_series` bins ages, which is not modelled. Age is one more grouping column, as it arrives.
- **`groupby().sum()` with missing values:** the code sums with pandas' default, so a missing cell adds 0 and an all-missing group sums to 0. A missing key drops the record from every group. This follows the code rather than a rule that a missing metric stays missing.
- **Case records with a missing key:** an untranslated sex label becomes missing. This model's conversion to daily counts drops every case record with a missing `sex`, `age`, `province_name` or `subregion2_name` before counting. Such a record therefore appears in neither the district records nor the regional records.
- **ISO reformatting:** a date that `datetime_isoformat` rejects becomes missing after the `dropna`. `GazetteerTable` therefore promises the stamp and the gazetteer, not a date.
- **Dates and the AU feed:**
  - `AuCovid19Au.ValidDate` bounds the day by 31 and does not check days per month;
  - the AU date index is a `Date` value;
  - NaN cells of the feed are not modelled: a cell is a list of integers, possibly empty.
- **`Cumulative.Minus`:** a text value minus a number keeps the text value. pandas would raise; the AU feed has only numbers there.
- **`grouped_diff`:** its body is not part of this model. This model assumes that it differences each record against the record of its group with the latest strictly earlier date, and keeps the value when there is none. That is what the AU pipeline needs for cumulative feeds.
- **`table_rename` with two source columns feeding one column:** this model assumes that the later adapter entry wins: the death date over the result date, and the declared age over the age. The routine's real behaviour in that case is not part of this model. A plain pandas rename would yield two columns of the same name.
- **The gazetteer join:** the source merges the data with the province table on every column they share. This model assumes that the table has exactly `province_name`, `subregion1_code` and `subregion1_name`, so the join is on `province_name` alone.
- **`table_multimerge`:** this model assumes a full outer merge on the grouping columns the count tables share.
- **`convert_cases_to_time_series`:** this model assumes one count per date, location, age and sex that occur in the case lines. Filling in zero counts over a date range, if the routine does that, is not modelled. This model's conversion drops case records with a missing `sex`, `age`, `province_name` or `subregion2_name` before counting, so they appear in neither the district nor the regional records.
- **`MemoryEfficient.TableJoin`:** only the two `how` values the tests use, "inner" and "outer", are modelled. The implementations of `table_join`, `table_cross_product` and `table_group_tail` are not part of this model. Their methods are written as straightforward writers and proved equal to the tests' references.
