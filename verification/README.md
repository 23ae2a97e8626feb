# Tutoring-centre billing calculator, modelled in Dafny

This project models the billing core of a small tutoring-centre application.

- **The calculator.** `calculateStudentBill` bills one student for a list of course records under a pricing ruleset. It makes one pass over the records. That pass sums total hours, hours per subject and the per-subject detail lines, and builds the cost before discounts. The rate is the student's price override for the subject if there is one, else the base price. The calculator then:
  - picks the multi-subject tier with the highest threshold that the number of billed subjects reaches;
  - applies that tier, either a per-hour reduction or a fixed per-hour price that is used only when it is strictly cheaper;
  - multiplies in a volume discount when the hours strictly exceed a threshold;
  - rounds the result to cents.
- **The aggregation.** `getAggregatedStats` makes one pass that sums hours per subject and per teacher name for the dashboard charts.

Both functions update local accumulators in a loop, so both are `method`s with loops. Each loop invariant ties the accumulators to specification functions of the records seen so far.

- **The calculator's contract.** The `ensures` of `CalculateStudentBill` gives every field of the bill in terms of those functions.
- **The lemmas.** They state what the functions mean:
  - grouping by subject neither loses nor duplicates hours;
  - the record-by-record cost equals the subject-by-subject cost;
  - the matched tier is the highest reachable one, whatever the configured order;
  - a fixed tier never raises the cost;
  - at most two discounts are listed, in order;
  - rounding gives the nearest cent, with halves rounded up.

How the model represents the source:

- **Numbers.** Money and hours are exact `real`s. JavaScript's `Math.round(x * 100) / 100` is `RoundToCents`: the floor of `100x + 0.5`, divided by 100. This keeps the source's round-half-up behaviour, also for negative values.
- **Subjects and prices.** `Subject` is a closed datatype of five subjects. The base-price table is a map that holds all five, so the source's `!== undefined` guard (services/billingService.ts:30) always holds.
- **Library calls.** The tier list is copied, sorted with the library sort and searched with `find`. These calls are modelled by what they mean:
  - a stable sort by threshold, highest first, so equal thresholds keep their configured order;
  - a first-match search.
- **Discounts and detail lines.** Both are kept as structured values (`AppliedDiscount`, `DetailEntry`). Their text is given by `Descriptions.Describe` and `Descriptions.DetailText`, which take the number-to-text conversions as parameters.

Modules:

| file | module | what |
|---|---|---|
| types.dfy | `BillingTypes` | subjects, students, course records, pricing rules, the bill |
| hour_sums.dfy | `HourSums` | total and grouped hour sums, and how they relate |
| tier_selection.dfy | `TierSelection` | sorting the tiers and matching one |
| rounding.dfy | `Rounding` | rounding to cents |
| billing_service.dfy | `BillingService` | the calculator and its specification |
| descriptions.dfy | `Descriptions` | the text of discounts and detail lines |
| aggregated_stats.dfy | `AggregatedStats` | the dashboard aggregation |
| scenarios.dfy | `BillingScenarios` | the initial pricing (constants.ts:17-33) worked through |

## Model

| member | source | states |
|---|---|---|
| BillingService.CalculateStudentBill | services/billingService.ts:6-91 | The bill returns `student` and `records` as passed in. `totalHours` is the sum of all record hours. Each of the five subjects is in `subjectCounts` with its records' hours and in `subjectDetails` with one entry per record of that subject. `originalCost` is the unrounded sum of rate times hours. The applied discounts and the cost after discounts are those of `Discounted` for the distinct-subject count, and `finalCost` is that cost rounded to cents. |
| BillingService.BillStep | services/billingService.ts:26-42 | One record's updates keep the accumulators equal to the bill of the records seen so far. The hours and the record's detail entry are added to its subject, and its hours times its rate to the cost. |
| BillingService.ApplyDiscounts | services/billingService.ts:44-79 | The sorted-then-found tier is applied first, then the volume discount. The result equals `Discounted`, the composition of the two discount steps. |
| BillingService.TotalHoursIsSumOfSubjectCounts | services/billingService.ts:12-31 | Total hours equal the sum of the five per-subject hour counts. |
| HourSums.GroupsPartitionTotal | services/billingService.ts:27-31 | When the keys are distinct and cover every record, the group sums add up to the total hours. No hours are lost or counted twice. |
| HourSums.GroupPositiveIffPresent | services/billingService.ts:50 | When every record has positive hours, a group's hours are non-negative, and they are positive exactly when some record has the group's key. |
| HourSums.GroupSumOfAbsentKey | services/billingService.ts:13-19 | A key that no record carries keeps its starting value of 0. |
| BillingService.NoOverridesMeansBasePrices | services/billingService.ts:36-41 | `Rate` is the student's override for a subject if present, else the base price. For a student without overrides, the cost before discounts is the sum of hours times base price. |
| BillingService.OriginalCostBySubject | services/billingService.ts:36-41 | The cost summed record by record equals the sum over the five subjects of the subject's hours times its rate. |
| BillingService.CostBySubjectAppend | services/billingService.ts:41 | Adding a record adds its hours times its subject's rate to the subject-by-subject cost. |
| BillingService.DetailsFollowRecords | services/billingService.ts:22-33 | A subject's details hold exactly one entry per record of that subject, in input order. Entry k carries the date and hours of the k-th such record. |
| BillingService.IndicesOf | services/billingService.ts:26-34 | Lists the positions of a subject's records: all in range, all of that subject, strictly increasing, and none missing. |
| BillingService.DetailHoursAddUp | services/billingService.ts:31-33 | The hours in a subject's detail lines add up to that subject's hour count. |
| BillingService.CountPositiveIsCardinality | services/billingService.ts:50 | Counting the subjects with positive hours gives the size of the set of such subjects. |
| BillingService.UniqueSubjectsAreDistinctSubjects | services/billingService.ts:50 | With positive hours on every record, the subject count is the number of distinct subjects among the records. |
| BillingService.ReductionTierRebate | services/billingService.ts:57-61 | `ApplyMultiSubject` applies the matched tier. A reduction tier lowers the cost by exactly hours times amount and adds exactly one description. |
| BillingService.FixedTierIsACap | services/billingService.ts:62-70 | In `ApplyMultiSubject`, a fixed tier never raises the cost. It adds a description exactly when hours times amount is strictly below the cost, and the cost then becomes that product. Otherwise the cost is unchanged. |
| BillingService.VolumeDiscountIsStrict | services/billingService.ts:75-79 | `ApplyVolume` is the volume discount. The volume discount applies exactly when the hours strictly exceed the threshold. It then multiplies the running cost by the multiplier and appends its description. |
| BillingService.DiscountsAreListedInOrder | services/billingService.ts:44-79 | `Discounted` is `ApplyMultiSubject` for the matched tier followed by `ApplyVolume`. At most two discounts are listed. The volume discount is last and is present exactly when the threshold is passed. No tier matched means no multi-subject description. |
| BillingService.ReductionThenVolumeCompound | services/billingService.ts:59-77 | With a reduction tier and the volume threshold passed, the discounted cost is (cost minus rebate) times the multiplier. |
| BillingService.NoDiscountBaseline | services/billingService.ts:36-87 | The student has no overrides, the hours are at or below the threshold and no tier is reachable. Then the bill lists no discount and costs the base-price total, and rounding leaves a whole-cent total unchanged. |
| TierSelection.SortByThresholdDesc | services/billingService.ts:53 | The sorted copy is ordered by threshold, highest first, and is a permutation of the configured tiers. |
| TierSelection.InsertByThreshold | services/billingService.ts:53 | Inserting a tier into a descending list keeps it descending and adds exactly that tier. |
| TierSelection.FindFirstEligible | services/billingService.ts:54 | A found tier is one of the list's tiers and its threshold is reached. Nothing is found exactly when every threshold exceeds the count. |
| TierSelection.FindFirstEligibleIsFirstMatch | services/billingService.ts:54 | `FindFirstEligible` returns the first reachable tier of the list: every tier before it has a threshold above the count. |
| TierSelection.FirstEligibleIsHighest | services/billingService.ts:52-54 | In a descending list, the first reachable tier has the highest threshold among the reachable ones. |
| TierSelection.MatchTierIsHighestEligible | services/billingService.ts:50-54 | `MatchTier` sorts a copy of the tiers and then searches it. There is no match exactly when every threshold exceeds the subject count. Otherwise the match is a configured tier whose threshold is reached and is the highest of all reachable thresholds. |
| TierSelection.MatchTierIgnoresConfiguredOrder | services/billingService.ts:53-54 | When thresholds are distinct, the matched tier does not depend on the order in which the tiers are configured. |
| TierSelection.MatchTierIsFirstHighestEligible | services/billingService.ts:53-54 | Sorting then finding equals one scan that keeps the highest reachable tier. Among tiers with equal thresholds, the earlier configured one wins. |
| Rounding.RoundToCentsIsNearestCent | services/billingService.ts:87 | The rounded cost is a whole number of cents within half a cent of the cost: more than x - 0.005 and at most x + 0.005. |
| Rounding.RoundToCentsKeepsCents | services/billingService.ts:87 | Rounding leaves a whole-cent amount unchanged. |
| Rounding.RoundToCentsIsMonotone | services/billingService.ts:87 | Rounding preserves order. |
| Rounding.RoundsHalfCentUp | services/billingService.ts:87 | Exact halves go up: 123.455 becomes 123.46, 0.005 becomes 0.01, and -0.005 becomes 0. |
| Descriptions.DescriptionSplitsAtOneColon | services/billingService.ts:61-78 | `Describe` is `Label`, a colon, then `Value`, with the source's text for each discount kind (lines 61, 68 and 78). When numbers are written without colons, each discount description has exactly one colon. Splitting there gives back the label and the value. |
| Descriptions.DetailTextKeepsDate | services/billingService.ts:33 | `DetailText` writes a detail entry as the source's detail line. A detail line is the date, then " (", then hours text with no parenthesis, so the date can be read back from it. |
| AggregatedStats.GetAggregatedStats | services/billingService.ts:93-107 | The loop updates a total map and a key order for each grouping, and `EntriesOf` turns them into the name/value list (lines 104-105). Both results equal `Grouped` for their key (subject or teacher name): one pair per key, in first-occurrence order, each with its records' hours. |
| AggregatedStats.KeysInOrderAreTheKeys | services/billingService.ts:98-105 | The listed names are distinct and are exactly the names some record has. |
| AggregatedStats.TallyStep | services/billingService.ts:99-100 | One update of a key's total (its old total, or 0 when new, plus the record's hours) keeps the running totals and key order equal to the grouping of the records seen so far. |
| AggregatedStats.GroupedListsEachNameOnce | services/billingService.ts:103-106 | Each list names every key once, exactly the keys present in the records, and each value is that key's hours. |
| AggregatedStats.GroupedValuesAddUpToTotal | services/billingService.ts:93-106 | The values of each list add up to the total hours of the records. |
| AggregatedStats.SubjectDistributionAgreesWithBill | services/billingService.ts:99 | The chart's hours for a subject equal the bill's hours for that subject. |
| AggregatedStats.EntriesSum | services/billingService.ts:104-105 | The values of the name/value list sum to the sum of the group sums of its keys. |
| BillingScenarios.InitialTiersMatchHighest | constants.ts:28-31 | Under the initial tiers, three subjects get the fixed tier in either configured order, two get the reduction tier and one gets none. |
| BillingScenarios.OverrideBeatsBasePrice | services/billingService.ts:37-39 | An override of 50 replaces the base price of 60, so two hours cost 100. |
| BillingScenarios.TwoSubjectRecordsAdd | services/billingService.ts:26-50 | 10 Math hours and 12 English hours at 60 make 22 hours in 2 subjects, costing 1320. |
| BillingScenarios.TwoSubjectDiscounts | services/billingService.ts:56-87 | 1320 for 22 hours in 2 subjects gets the reduction (220 off), then 10% off, giving 990. |
| BillingScenarios.ThreeSubjectRecordsAdd | services/billingService.ts:26-50 | One hour each of three subjects at an override of 40 costs 120 and counts 3 subjects. |
| BillingScenarios.DearerFixedTierIsSkipped | services/billingService.ts:62-70 | A fixed tier of 50 an hour is dearer than 120 for 3 hours, so it is skipped and nothing is listed. |

## Left out

- Floating point: the model computes in exact reals. In JavaScript, binary rounding can make `Math.round(x * 100) / 100` differ from the exact result. For example, a cost of 1.005 is stored slightly below 1.005, so JavaScript rounds it to 1, while the exact result is 1.01. NaN from a missing base price cannot occur because the price table is total.
- Subjects outside the five: the source's `!== undefined` guard skips the per-subject tables for them. In the model every subject is one of the five, so the guard always holds.
- BillingService.CalculateStudentBill: the discount descriptions and the detail lines are returned as structured values. Their text, including JavaScript's number-to-string and `toFixed(0)` conversions, is given separately by `Descriptions.Describe` and `Descriptions.DetailText` with the conversions as parameters.
- Tier thresholds are integers (`int`). The pricing screen only edits tiers at thresholds 2 and 3 (components/views/PricingConfigView.tsx:13-34), so no fractional threshold reaches the calculator. Fractional thresholds are not modelled.
- AggregatedStats.GetAggregatedStats: the totals are plain JavaScript objects, and the model treats them as maps. Two divergences follow.
  - A JavaScript object lists keys that look like array indices (a teacher named "12", say) before other keys, in numeric order. The model lists every key in first-occurrence order.
  - Teacher names that are inherited object properties are not modelled. For a teacher named "toString", "constructor", "valueOf" or "hasOwnProperty", the first `|| 0` read gets a function, so the stored value becomes text rather than a sum. A teacher named "__proto__" is dropped from the list. The model gives every name its summed hours.
- The unused `totalRevenue` constant in `getAggregatedStats` is not modelled.
- The configured tier list being left unmutated needs no statement: sequences are values, so sorting a copy cannot change the original.
- Object identity: the bill returns the student and records objects themselves, which the model represents as equal values.
- Everything around the core is not part of this model: views, spreadsheet import, persistence, audit logging, month filtering, the payment-status rule and dashboard revenue estimates.
