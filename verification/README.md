# NoiseFence: verified models

NoiseFence is an SMTP filtering gateway written in Rust, with a Python toolchain that trains and
evaluates its classifiers. This project models the parts of both whose correctness rests on an
argument rather than on a single body, and proves that argument in Dafny 4.11. `dafny verify
dfyconfig.toml` checks everything.

* **Campaign grouping** (`UnionFind`, `SimHash`, `CampaignGraph`, `Campaigns`). Union-find with path
  halving, exact-key maps and a 4 x 16-bit band index over 64-bit SimHashes, as classes with an array
  and maps. The result is proved to be exactly the connected components of "same key, or Hamming
  distance at most 3".
* **Selection without leakage** (`Inventory`, `Selection`, `Audit`, `Feedback`, `Folds`). The three
  trainers that keep one representative per campaign: what they keep, what they refuse, that the
  counters lose nothing, and that no campaign crosses a split, a cut or a fold.
* **Admission counter** (`Capacity`). The lock-free counter with a movable limit and notification, as
  an interleaved step system over any number of tasks and any finite run.
* **Decision pipeline** (`Evidence`, `Decision`, `DecisionRows`, `DecisionTheorems`,
  `DecisionOutcomes`, `DecisionEffects`, `ScanRecord`). Policy application and finalisation of a scan. `ScanRecord`
  holds the in-place methods, each proved equal to a closed-form function; the theorems are about
  those functions.
* **Recipient rules** (`Text`, `Rules`, `RuleOrder`, `RulePrecedence`, `RuleTrace`, `RuleAuthority`). Scope ranks,
  three-valued conditions, the match cache, the rule loop and its trace.
* **Thresholds and intervals** (`Cutoff`, `Thresholds`, `Wilson`, `Calibration`, `Population`), over
  the reals.
* **Addresses** (`Addresses`, `Routing`, `RoutingTheorems`). Address syntax, configuration validation
  and recipient resolution.

`Options` and `Orders` hold an option type, stable sorting, filtering and counting.

## Findings

Where a promise turned out not to hold for every input, the code is kept as it is, a lemma gives an
input for which it fails, and another says exactly when it holds.

* Finalising a scan *without* a recorded decision at two thresholds remembers the first one
  (`DecisionTheorems.UnrecordedDecisionRemembersThreshold`); `LastThresholdWinsExactly` gives the
  condition.
* Applying the policy with one corroboration setting and then with another is not the same as
  applying the second alone, in either order (`DecisionOutcomes.EarlierPassCanDefeatRequirement`,
  `LiftedRequirementCanStillHold`); `RequirementAfterEarlierPass` and `LiftingAfterEarlierPass` give
  the conditions for every scan and threshold.
* A comment in src/custom_filtering.rs:511 says that personal rules cannot override administrator
  rules. An administrator rule that names only an action leaves the category of a personal rule in
  place (`RuleAuthority.ActionOnlyLeavesCategory`); `ActionRuleEqualsBare` gives the condition on the
  rules.
* Lowering the limit while an acquisition is between its check and its exchange admits a task above
  the new limit (`Capacity.LoweringCanOvershoot`); `GrantWithinLimit` says exactly when a grant stays
  within the limit in force, and `AdmissionBound` bounds the overshoot.
* Calibration accepts thresholds from 0. Below 0.0001 the clamp moves the operating point and the
  false-positive budget can be missed (`Calibration.ZeroThresholdMissesBudget`);
  `BudgetMetAboveLowestPoint` gives the condition.
* The band index is exact for distance 3 and would not be for distance 4
  (`SimHash.FourBitsCanEscape`).

## Model

| member | source | states |
|---|---|---|
| `UnionFind.LabelIsLeast` | research/train_fusion.py:102-112 | a canonical label is the least index of its class and labels itself |
| `UnionFind.HalvingKeepsLabels` | research/train_fusion.py:104-108 | one path-halving store keeps parents at or below their children and changes no class |
| `UnionFind.LinkMergesLabels` | research/train_fusion.py:110-112 | linking the larger root below the smaller gives exactly the merged classes, again labelled by their least index |
| `UnionFind.MergedIsJoin` | research/train_fusion.py:110-112 | merging is the least coarsening that puts the two elements in one class |
| `UnionFind.Forest.constructor` | research/train_fusion.py:102 | every index starts alone |
| `UnionFind.Forest.Find` | research/train_fusion.py:104-108 | terminates on the decreasing index, returns the least index of the class, changes no class while halving |
| `UnionFind.Forest.Union` | research/train_fusion.py:110-112 | the new classes are the old ones with the two merged, nothing else |
| `SimHash.DistanceByBands` | research/train_fusion.py:129-135 | the Hamming distance is the sum of the distances of the four bands |
| `SimHash.NearHashesShareABand` | research/train_fusion.py:128-135 | two hashes at distance at most 3 agree on a whole band (pigeonhole), so the index offers every near pair |
| `SimHash.FourBitsCanEscape` | research/train_fusion.py:128-135 | at distance 4 a pair can share no band: the radius is tight |
| `CampaignGraph.MergeKeepsSound` | research/train_fusion.py:110-142 | merging two connected rows never joins unrelated rows |
| `CampaignGraph.LabelsAreComponents` | research/train_fusion.py:100-142 | labels that are sound and closed under links coincide exactly when rows are connected by a walk |
| `CampaignGraph.ComponentsUnique` | research/train_fusion.py:139-142 | the ordered component list is determined by the graph, so grouping does not depend on the set order of neighbours |
| `Campaigns.Grouper.AddKey` | research/train_fusion.py:119-123 | indexing one key joins the row to every earlier holder of it and keeps the other indexes |
| `Campaigns.Grouper.Neighbors` | research/train_fusion.py:128-130 | the bucket union holds exactly the known hashes that share a band |
| `Campaigns.Grouper.Compare` | research/train_fusion.py:128-135 | after the comparisons the row is joined to every known hash within distance 3, unless the budget ran out |
| `Campaigns.Grouper.AddHash` | research/train_fusion.py:124-138 | a repeated hash joins its holder, a new one is compared and filed in its four buckets |
| `Campaigns.Grouper.AddAll` | research/train_fusion.py:114-138 | indexing runs through exactly when no row is unusable and no prefix exceeds the comparison budget |
| `Campaigns.IndexesClose` | research/train_fusion.py:114-138 | complete indexes mean that linked rows carry one label |
| `Campaigns.UsableMeans` | research/train_fusion.py:117-118 | training needs every field of a row, the population only refuses malformed ones |
| `Campaigns.Group` | research/train_fusion.py:100-142 | fails exactly on missing provenance or more than 5,000,000 comparisons; otherwise the result lists exactly the connected components, by first member, members ascending |
| `Campaigns.PopulationGroups` | research/evaluate_population.py:24-76 | the same for the population variant with its limit of 200,000 rows, absent keys adding no edge |
| `Campaigns.AbsentProvenanceAddsNoEdge` | research/evaluate_population.py:24-76 | a row with only absent fields is connected to itself alone |
| `Inventory.SizesAreTotal` | research/train_fusion.py:145-163 | counting members group by group counts every row exactly once |
| `Selection.CountersMatch` | research/train_fusion.py:147-163 | retained, set-aside and duplicate counters add up to the members seen so far |
| `Selection.LeastIsFirst` | research/train_fusion.py:159 | the representative is the first member of least id |
| `Audit.AcceptanceIsSeparability` | research/train_fusion.py:148-158 | no group is refused exactly when no campaign reaches history, crosses splits or mixes certain labels |
| `Audit.SelectionRepresents` | research/train_fusion.py:148-161 | exactly one certain representative, of least id, for each campaign that has one |
| `Audit.AcceptedReport` | research/train_fusion.py:145-163 | the report is sorted by id and input = retained + uncertain + duplicates removed |
| `Audit.AuditGroups` | research/train_fusion.py:145-163 | succeeds exactly when the provenance is usable, the budget suffices and the rows are separable; then all of the above holds |
| `Feedback.SelectionIsExact` | research/train_feedback.py:135-151 | each uniformly labelled component is described once (least id, first and last observation, last label time), each mixed one not at all |
| `Feedback.MixedTotal` | research/train_feedback.py:135-151 | the conflicting counter counts exactly the messages of mixed components |
| `Feedback.GroupRows` | research/train_feedback.py:96-151 | fails exactly on unusable rows or budget; otherwise the selection is exact and input = retained + duplicates removed + conflicting |
| `Feedback.NoTemporalLeakage` | research/adapt_feedback.py:240-244 | every member of a training component is observed and labelled before the cut, every member of a test component at or after it, and no training message is connected to a test message |
| `Feedback.SidesAreExact` | research/adapt_feedback.py:242-244 | a component trains if and only if all its messages are observed and labelled before the cut, and tests if and only if all are observed at or after it |
| `Feedback.SplitIsDisjointAndTestable` | research/adapt_feedback.py:240-244 | for a cut at any position of the sorted first observations, however 70% of the length is rounded, no component is on both sides and the test side is not empty |
| `Folds.CutsIncrease` | research/train_quality.py:144-151 | accepted cuts are strictly increasing |
| `Folds.CutsAreQuantiles` | research/train_quality.py:144-151 | the cuts are the quantiles at 50, 65, 80 and 90 percent of all observation times, or none when two coincide |
| `Folds.FewRowsHaveNoCuts` | research/train_quality.py:147-148 | below twenty rows there are no cuts |
| `Folds.PeriodMeans` | research/train_quality.py:169 | a time lies above period i if and only if it reaches cut i |
| `Folds.PeriodsAreOrdered` | research/train_quality.py:169 | periods are monotone in time, and a smaller period means an earlier time |
| `Folds.PicksAreExact` | research/train_quality.py:168-184 | picks are exactly one least-id labelled representative per component that lies in one period with one label |
| `Folds.EnterGroups` | research/train_quality.py:166-185 | the loop's folds and counters are those of the components seen, and they partition the components |
| `Folds.PartitionInventory` | research/train_quality.py:159-185 | the three outcomes with their exact conditions; components = cross-period + conflicting + unlabelled + selected |
| `Folds.FoldsAreTimeOrdered` | research/train_quality.py:144-185 | every message of an earlier fold's component is strictly older than every message of a later fold's component, and they are not connected |
| `Folds.LabelsNeverMoveFolds` | research/train_quality.py:144-185 | changing labels moves neither the cuts nor any component to another fold |
| `Capacity.StepInv` | src/capacity.rs:23-70 | every atomic step keeps the invariant: counter = live permits, bounded by the highest limit, and each un-notified waiter is justified or a notification is owed |
| `Capacity.RunInv` | src/capacity.rs:23-70 | the invariant holds after every finite interleaving |
| `Capacity.NoLostWakeup` | src/capacity.rs:23-57 | in every reachable state a parked un-notified waiter implies that the counter is at its limit or that some task still owes its notification |
| `Capacity.QuietMeansFull` | src/capacity.rs:23-70 | once nobody owes a notification, a waiter parked without one means that there is no room |
| `Capacity.AdmissionBound` | src/capacity.rs:27-43 | admitted permits never exceed the highest limit ever set |
| `Capacity.WithinLimitWhileRising` | src/capacity.rs:23-43 | with a limit that is never lowered, admissions stay within the current limit |
| `Capacity.GrantWithinLimit` | src/capacity.rs:27-43 | for every acquisition whose check found room and whose exchange succeeds, whatever the other tasks do in between: the grant stays within the limit in force if and only if the counter it saw is below the last limit set since its check |
| `Capacity.LoweringCanOvershoot` | src/capacity.rs:23-43 | a concrete run that ends above a lowered limit |
| `Capacity.NotifiedWaiterSucceeds` | src/capacity.rs:47-57 | a notified waiter that runs alone while there is room obtains a permit |
| `Capacity.WaiterIsNeverStranded` | src/capacity.rs:23-70 | from every reachable state with room, a parked waiter can be led to a permit |
| `Capacity.FailedExchangeMeansProgress` | src/capacity.rs:28-41 | whenever a loaded counter, first or after a retry, makes the exchange fail, some action in between granted or returned a permit, and it was another task's if this one only made its check: the retry loop is lock-free |
| `Capacity.AcquisitionsEndAsPromised` | src/capacity.rs:27-57 | in every interleaving a started acquire comes back only with a permit or by cancellation, and a try only with a permit or by a check that saw the counter at or above the limit |
| `Capacity.SoloSucceeds` | src/capacity.rs:27-57 | while there is room, a task that has seen room obtains a permit by its own actions alone, retrying a lost exchange; one that loaded a full counter fails its check, and a waiter then has its notification or is owed one |
| `Capacity.CounterIsBalance` | src/capacity.rs:27-70 | in every run the counter is the number of exchanges won less the number of permits dropped |
| `Capacity.NoSpuriousWakeup` | src/capacity.rs:47-57 | a waiter is woken only by another task's notification since it registered |
| `DecisionTheorems.ApplyIsIdempotent` | src/decision.rs:347-444 | applying the policy again with the same requirement changes nothing, for every scan |
| `DecisionTheorems.ResolutionIsUndone` | src/decision.rs:32-137 | undoing a resolution recovers the scan it started from, once a decision was recorded |
| `DecisionTheorems.LastThresholdWins` | src/decision.rs:58-137 | with a recorded decision, resolving at two thresholds is resolving at the second |
| `DecisionTheorems.LastThresholdWinsExactly` | src/decision.rs:58-137 | for every scan, the exact condition under which the last threshold wins |
| `DecisionTheorems.UnrecordedDecisionRemembersThreshold` | src/decision.rs:58-137 | a concrete scan for which it does not |
| `DecisionTheorems.ApplyIgnoresFinalize` | src/decision.rs:347-444 | the policy judges a finalised scan exactly as the scan before finalisation |
| `DecisionTheorems.FinalizeTerminates` | src/decision.rs:207-209 | with a valid threshold only an antivirus decision can stay undetermined, and no undetermined delivery class remains |
| `DecisionTheorems.RunsKeepEvidence` | src/decision.rs:347-444 | every run of applications and finalisations keeps at most one row per derived reason, the underlying rows in order, and the evidence |
| `DecisionOutcomes.RequiredCorroborationVerdict` | src/decision.rs:299-444 | for every fresh legacy scan the final outcome under required corroboration is unwanted if and only if the evidence deserves it |
| `DecisionOutcomes.UnwantedNeedsEvidence` | src/decision.rs:347-444 | a fresh legacy scan that ends unwanted under the requirement is corroborated or an observed threat |
| `DecisionOutcomes.RequiringNeverAddsUnwanted` | src/confirmation.rs:72-97 | for every scan, requiring corroboration never yields a final unwanted that not requiring it would not |
| `DecisionOutcomes.RequirementAfterEarlierPass` | src/decision.rs:347-444 | for every scan and threshold, a pass with the requirement after one without it gives the outcome of the requirement alone if and only if the first pass did not release the scan: complete, legacy, unarbitrated and uncorroborated, sent to context review or abstaining with the missing-corroboration row, and unwanted by its score without a benign conflict |
| `DecisionOutcomes.LiftingAfterEarlierPass` | src/decision.rs:347-444 | for every scan and threshold, lifting the requirement after a pass with it gives the outcome without it if and only if the first pass does not hold the scan: an unarbitrated, uncorroborated, unwanted legacy decision that needs no review, is no observed threat and that the score does not confirm |
| `DecisionOutcomes.EarlierPassCanDefeatRequirement` | src/decision.rs:347-444 | a concrete scan that ends unwanted without corroboration because of an earlier pass |
| `DecisionOutcomes.LiftedRequirementCanStillHold` | src/decision.rs:347-444 | a concrete scan that stays accepted because of an earlier requirement that was lifted |
| `DecisionEffects.PlainVerdict` | src/decision.rs:58-137 | without required corroboration a fresh legacy scan ends unwanted if and only if its input says so: malware, observed threat, an undisputed unwanted decision, or an open one that the score confirms and no benign conflict accepts |
| `DecisionEffects.ApplyEffects` | src/decision.rs:299-444 | for a fresh legacy scan: when the decision is left open and with which score, the saved arbitration (agreement if and only if the opinions are equal, and so on), the rows written in order, and tags kept exactly without an abstention |
| `DecisionEffects.OverrideEffects` | src/decision.rs:375-405 | malware and observed threats override the decision with their own row and tags |
| `DecisionEffects.OtherDecisionsStand` | src/decision.rs:299-305 | a decision that is missing or not the legacy one is neither arbitrated nor withheld |
| `DecisionEffects.FinalizeRecords` | src/decision.rs:58-137 | finalisation resolves exactly the open non-antivirus decisions and classes, and records what it replaced, the usable score, the guard and one row |
| `DecisionEffects.EarlierArbitrationIsUndone` | src/decision.rs:347-371 | the policy starts over from the baseline of an arbitration of versions 8 to 15 that is still in force |
| `DecisionEffects.CorroborationSources` | src/confirmation.rs:18-66 | exactly five observations corroborate, four of them only in a usable transport context |
| `DecisionEffects.DisputesExcludeEvidence` | src/message_context.rs:363-382 | context review and benign conflict never meet corroboration or an observed threat |
| `DecisionEffects.ReviewMeans` | src/message_context.rs:363-382 | the exact condition of a context review on the recorded facts |
| `DecisionEffects.UnauthenticatedMeans` | src/decision.rs:250-278 | the exact sender results of an observed threat |
| `DecisionEffects.ReadableMeans` | src/mailing.rs:145-160 | a scan is readable despite a DNS gap if and only if that gap is there and no other |
| `DecisionEffects.ThreatMeans` | src/decision.rs:214-278 | the exact condition of an observed threat, with the gaps it excuses |
| `DecisionEffects.BenignMeans` | src/decision.rs:142-205 | the exact condition of the benign conflict |
| `ScanRecord.Record.RestoreScoreResolution` | src/decision.rs:32-40 | the in-place undo equals the closed form |
| `ScanRecord.Record.ResolveByScore` | src/decision.rs:58-137 | the in-place resolution equals the closed form, on every branch |
| `ScanRecord.Record.Arbitrate` | src/decision.rs:299-345 | the in-place arbitration equals the closed form and reports what it compared |
| `ScanRecord.Record.RequireCorroboration` | src/confirmation.rs:72-97 | the in-place corroboration step equals the closed form |
| `ScanRecord.Record.ApplyPolicy` | src/decision.rs:347-444 | the whole in-place application equals the closed form |
| `ScanRecord.Record.FinalizeDelivery` | src/decision.rs:207-209 | finalisation equals the closed form |
| `ScanRecord.StepsWeigh` | src/decision.rs:376-444 | arbitration, corroboration and context review in sequence equal the closed form of all three |
| `RuleOrder.RankNamesScope` | src/custom_filtering.rs:188-212 | a rank names one scope string for a recipient |
| `Rules.CachedValues` | src/custom_filtering.rs:444-459 | reading the cache at the position before sorting gives the values that direct matching gives |
| `Rules.PlainSort` | src/custom_filtering.rs:494-530 | sorting numbered rules visits the rules in the order of sorting them plainly |
| `Rules.Turn` | src/custom_filtering.rs:660-751 | one turn of the loop in the source's own branches equals one step of the specification |
| `Rules.AssessPrepared` | src/custom_filtering.rs:543-789 | the evaluator with cache and sorted positions equals the specification without them |
| `RuleTrace.FirstStopWins` | src/custom_filtering.rs:679-751 | the loop is stopped exactly by the first matching rule that stops |
| `RuleTrace.LastWriterWins` | src/custom_filtering.rs:660-751 | the category is that of the last active rule naming one, the action that of the last active rule naming either, else the starting values stay |
| `RuleTrace.TraceChains` | src/custom_filtering.rs:660-751 | trace steps chain from the initial to the final values |
| `RuleTrace.TraceTells` | src/custom_filtering.rs:660-751 | each rule has one step: stopped exactly after a stopping match and inert then, matched exactly when active, missing facts exactly when a value was unknown |
| `RuleTrace.MatchedAreActive` | src/custom_filtering.rs:740-744 | the matched list is exactly the active rules in evaluation order |
| `RuleTrace.NamedRulesDecide` | src/custom_filtering.rs:718-739 | the named rules are the last writers and their recorded after-values are the result |
| `RuleTrace.TraceExplainsAssessment` | src/custom_filtering.rs:543-789 | for every policy, scan and recipient the trace explains the assessment, and malware overrides it without naming a rule |
| `RuleTrace.LearningKeepsMatches` | src/custom_filtering.rs:411-442 | learning further facts never undoes a match |
| `RuleTrace.MissingFactBlocks` | src/custom_filtering.rs:411-442 | without its fact a condition never helps, whatever its operator: an all-rule cannot match, an any-rule matches exactly when another condition holds |
| `RuleOrder.RulesForgetOrder` | src/custom_filtering.rs:494-530 | the evaluation order does not depend on the listing order of rules with unique ids |
| `RuleOrder.ProfilesForgetOrder` | src/custom_filtering.rs:461-492 | the profile order does not depend on the listing order of bindings and profiles |
| `RuleOrder.AssessmentForgetsOrder` | src/custom_filtering.rs:461-789 | permuting rules, bindings and profiles changes no assessment |
| `RulePrecedence.RankMeans` | src/custom_filtering.rs:188-212 | everyone, destination domain, address domain, destination, address: which scope string has which rank |
| `RulePrecedence.OperatorsMean` | src/custom_filtering.rs:419-440 | each operator as a statement about the folded value and target |
| `RulePrecedence.MatchesMean` | src/custom_filtering.rs:411-442 | a condition is unknown if and only if its fact is missing, and otherwise holds for some value, some presence or all emptiness |
| `RulePrecedence.ConditionsRead` | src/custom_filtering.rs:683-698 | which conditions read this recipient's facts and which the message's |
| `RulePrecedence.RuleMatches` | src/custom_filtering.rs:700-704 | an any-rule needs one condition to hold, an all-rule every one |
| `RulePrecedence.RulesThatRun` | src/custom_filtering.rs:499-508 | exactly the enabled, unexpired rules whose scope covers the recipient run, as often as listed |
| `RulePrecedence.RulesRunInOrder` | src/custom_filtering.rs:508-530 | on the rules' own fields: in scoped mode personal before administrator, then less specific scopes, then priority, owner's id and id; in legacy mode priority and ids |
| `RulePrecedence.LastInOrderDecides` | src/custom_filtering.rs:660-751 | of all active rules naming a category the last in that order decides, in legacy mode one of the highest priority number, an undetermined name standing for the fallback |
| `RulePrecedence.ProfilesApplyInOrder` | src/custom_filtering.rs:461-492 | profiles apply by specificity, then personal first in scoped mode, then by id |
| `RulePrecedence.SelectedIsMostSpecific` | src/custom_filtering.rs:461-492 | no applicable binding is more specific than the selected profile's |
| `RulePrecedence.ThresholdIsFirst` | src/custom_filtering.rs:576-592 | the override threshold is the first one in that order, if usable |
| `RulePrecedence.UntouchedCategory` | src/custom_filtering.rs:629-645 | without a rule naming one, the category is the selected profile's judgement, else the original |
| `RulePrecedence.RequestedAction` | src/custom_filtering.rs:647-739 | the action is what the last active rule asks for, else what the selected profile or the configuration prescribes for the final category |
| `RulePrecedence.UnknownFieldsMean` | src/custom_filtering.rs:705-711 | a step reports exactly the fields of the conditions without an answer |
| `RulePrecedence.UnavailableIsReported` | src/custom_filtering.rs:699 | the counter of unavailable conditions is what the trace reports missing |
| `Text.StrLeMeans` | src/custom_filtering.rs:523-527 | ids compare lexicographically: a prefix, or smaller at the first difference |
| `RuleAuthority.OrderSplits` | src/custom_filtering.rs:508-530 | in scoped mode all personal rules run before all administrator rules |
| `RuleAuthority.AdministratorsPrevail` | src/custom_filtering.rs:508-751 | removing every personal rule changes no value that an active administrator rule sets, and never where evaluation stops |
| `RuleAuthority.PersonalRulesDecideTheRest` | src/custom_filtering.rs:508-751 | what no administrator rule sets is what the personal rules alone give |
| `RuleAuthority.ActionRuleEqualsBare` | src/custom_filtering.rs:508-751 | when an administrator rule sets the action, category and action equal those without personal rules if and only if malware overrides, an administrator rule sets the category, no matching personal rule names a category, or the last one that does names the initial one |
| `RuleAuthority.ActionOnlyLeavesCategory` | src/custom_filtering.rs:508-751 | a mailbox owner's rule for the own address, as src/preferences.rs:124-131 admits it, makes spam of a legitimate message although an administrator rule sets the action |
| `Cutoff.Search` | research/train_fusion.py:362-376 | the loop's best cutoff has the recorded counts, is clear of every eligible logit, and no candidate beats it |
| `Cutoff.SearchIsOptimal` | research/train_fusion.py:355-376 | clear and unbeaten among the candidates means optimal among all real cutoffs |
| `Cutoff.ChooseCutoff` | research/train_fusion.py:355-376 | fails exactly when a class is missing; at most one false positive per thousand negatives, logits at most two gaps apart never separated, no well-clear cutoff within the budget finds more spam or as much with fewer errors, and the cutoff lies above all, half way between neighbours or two gaps below the last |
| `Thresholds.FeasibleBeyondExcluded` | research/train_quality.py:244-256 | a pair of inclusive thresholds meets both budgets exactly when it lies strictly beyond the excluded scores |
| `Thresholds.BudgetAlwaysMet` | research/train_quality.py:245-254 | the selection succeeds exactly when the excluded legitimate score is below 1 and the excluded spam score above 0, and the later budget check never fails |
| `Thresholds.RatesNeverExceedBudget` | research/train_quality.py:238-256 | for given error rates the sample is invalid exactly for a bad rate, a bad score or an empty class, and the budget check never fails |
| `Thresholds.SelectsWheneverFeasible` | research/train_quality.py:231-258 | the selection succeeds exactly when some feasible pair exists; the selected pair is feasible, brackets one half and reports the sample's errors |
| `Thresholds.SelectionIsTight` | research/train_quality.py:231-251 | the selected pair is as close to one half as the excluded scores and the guard allow: no feasible pair around one half is tighter by more, and every score beyond them is decided |
| `Thresholds.AllowedIsFloor` | research/train_quality.py:245 | the number of allowed errors is the rate of the class rounded down |
| `Wilson.WilsonInvertsScoreTest` | src/corpus.rs:48-59 | the interval holds exactly the rates that the score test does not reject |
| `Wilson.WilsonContainsRate` | src/corpus.rs:48-59 | for all reals 0 <= k <= n, n > 0, the unclamped interval lies in [0, 1] and contains k/n, so the clamp changes nothing |
| `Wilson.NoTrials` | src/corpus.rs:49-51 | without trials the interval is the whole unit interval |
| `Wilson.SpreadMeans` | src/corpus.rs:54 | the critical value is 1.959963984540054 |
| `Calibration.Model.Calibrate` | src/corpus.rs:269-280 | the in-place shift of the bias, and exactly when it meets the false-positive budget on the validation set |
| `Calibration.Model.Tally` | src/corpus.rs:60-86 | the four counters of the evaluation loop are those of the prediction predicate |
| `Calibration.CalibrationMeetsBudget` | src/corpus.rs:269-280 | for every validation set and threshold, false positives stay within floor(ham/1000) if and only if the clamped target lowered by 0.02 stays below the threshold |
| `Calibration.UsualThresholdsMeetBudget` | src/corpus.rs:269-280 | every threshold of at least 0.0001 meets the budget |
| `Calibration.BudgetMetAboveLowestPoint` | src/corpus.rs:269-280 | one bound for all thresholds: the budget is met if and only if the threshold exceeds the score of the clamp's lower end lowered by 0.02 |
| `Calibration.ZeroThresholdMissesBudget` | src/corpus.rs:167-170 | the accepted threshold 0 misses it for every validation set |
| `Population.OutcomeMetrics` | research/evaluate_population.py:122-158 | on the cells themselves: a message is right only with a recorded right prediction, a campaign of one truth only if all its messages are; campaigns with unknown or mixed truth are set apart, and all counters partition the population |
| `Population.ConservativeBoundsEveryCompletion` | research/evaluate_population.py:129-149 | for every way of filling the missing predictions, conservative true positives are never above and false positives never below, per message and per campaign |
| `Population.ConservativeIsAttained` | research/evaluate_population.py:129-149 | one completion attains all conservative counts at once |
| `Population.ConservativeAddsErrors` | research/evaluate_population.py:126-132 | the conservative counts are the assessed ones plus one alarm or miss per missing prediction |
| `Population.BoundsPrecision` | research/evaluate_population.py:129-132 | the conservative precision is never above that of any completion |
| `Addresses.ScanQuoted` | src/config.rs:250-264 | the scan with its two flags accepts exactly the quoted texts of the grammar |
| `Addresses.DomainFold` | src/config.rs:234-245 | letter case does not affect the validity of a domain |
| `Addresses.DomainMeans` | src/config.rs:234-245 | a valid domain is 1 to 253 characters that are host labels of 1 to 63 characters joined by dots |
| `Addresses.DotAtomMeans` | src/config.rs:265-272 | unquoted local parts are atom characters and dots, no dot at an end and no two in a row |
| `Addresses.AddressMeans` | src/config.rs:246-274 | an address is a valid local part of 1 to 64 characters and a valid domain around the last '@', 254 characters in all |
| `Addresses.KeysIdentify` | src/config.rs:665-670 | two addresses are the same mailbox exactly when their lower-case-domain keys agree |
| `Routing.Validate` | src/config.rs:471-546 | the loops with their three sets accept exactly the well-formed configurations |
| `RoutingTheorems.ResolutionIgnoresCase` | src/config.rs:614-670 | spellings that differ in domain letter case resolve alike, in every configuration |
| `RoutingTheorems.ResolutionIsFixed` | src/config.rs:638-663 | resolving a returned destination gives it back with the same hosts |
| `RoutingTheorems.DestinationIsNoAlias` | src/config.rs:624-663 | in a validated configuration no destination is an alias of any domain |
| `RoutingTheorems.AtMostOneHop` | src/config.rs:638-663 | a resolved address goes directly, or through one declared alias, to a mailbox with a route |
| `RoutingTheorems.RecipientsResolveToThemselves` | src/config.rs:492-505 | every configured recipient resolves to itself over its domain's routes |
| `RoutingTheorems.AliasesResolve` | src/config.rs:528-546 | every configured alias resolves in one hop to its canonical target |
| `RoutingTheorems.FallbackIsServed` | src/config.rs:507-527 | a fallback mailbox resolves without alias over its own domain's routes, and its domain verifies no recipients |
| `RoutingTheorems.ResolvesExactlyServed` | src/config.rs:614-663 | a validated configuration resolves exactly the addresses of its recipients, aliases and accept-all domains |

## Left out

- HTTP API, sessions, databases, file publishing, credentials, SMTP transport: plumbing around external systems.
- Numerical fitting (logistic regression, L-BFGS, gradient descent, Bernoulli counts): no contract in the code to prove.
- Floating-point rounding and NaN: a percentile position is the exact product rounded down; scores, logits and thresholds are reals; neighbouring floating-point numbers, the square root and the logistic function enter through the properties named in `Thresholds.Neighbours`, `Wilson.IsRoot` and `Calibration.Logistic`.
- MIME, URL and HTML parsing, Unicode case folding and number parsing: the facts of a message are input, `Rules.Reader` is a parameter. Syntax checks work on characters; only ASCII text passes them, where characters and bytes agree.
- Memory orders and fairness: all atomic operations are sequentially consistent, as in the source; scheduling is arbitrary, so a waiter's progress is stated as a run that exists.
- Rules.AssessPrepared: leaves out `actions::constrain`, quarantine days, the policy digest and display names; the profile re-decision and the score fallback are function parameters.
- Routing.Validate: leaves out the next-hop endpoint and loop checks, the recipient-verification settings and everything unrelated to domains and recipients; it models the verdict, not the error texts.
- Calibration.Model.Tally: takes each example's weighted feature sum as input; the ratios that the report derives from the counters are not repeated.
- Cutoff.ChooseCutoff: takes labels, logits and eligibility as one row per message and assumes finite logits, which the source requires.
- Feedback.GroupRows: leaves out the representative's `group` fingerprint, which the split does not read.
- Feedback.SplitIsDisjointAndTestable: does not model the fitting that follows, the replay rows, nor which position the floating-point product selects.
- Capacity.NotifiedWaiterSucceeds: states success when the waiter runs alone; competing tasks may take the room first.
- The decision record's `projected` flag, the resolution version string and tag texts: constants that no modelled branch reads.
- Subject tags, backscatter, action coverage and the audit reports of src/confirmation.rs: single-pass case tables.
- Campaigns.PopulationGroups: does not model `independent_groups`, whose refusal is one of those proved for `Audit.AuditGroups`.
