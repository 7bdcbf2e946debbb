# Task-dependency analysis and orchestration rules of migration-orchestration

This project models, in Dafny, the planning layer of a repository that drives many remote coding
sessions through a code-migration plan. A plan is a flat list of task records. Each record has an
`id`, a `depends_on` list, and optional `estimated_hours` (8 when missing), `status`, `title`,
`content` and `validation_mechanism` fields.

The centre is `ParallelDetector` (src/utils/parallel_detector.py):

- `calculate_levels` gives every task a topological level. It raises `ValueError` on a
  dependency cycle.
- `detect_parallel_groups` splits each level greedily into clusters of mutually independent
  tasks and keeps the clusters of two or more as `ParallelGroup`s, each with a cumulative
  earliest start.
- `calculate_critical_path` finds a longest chain by hours.
- `get_execution_plan` and `analyze_tasks` summarise serial hours, level-synchronised parallel
  hours, time saved and efficiency.

Around it the model covers:

- the ready-task rules and batch selection of the three orchestrators and of the simple runner;
- the in-place status update of a plan;
- the GitHub pull-request URL parser and the URL extraction from session results;
- the Mermaid helpers of both visualisation tools (category inference, text escaping, node
  labels, dependency arrows and parallel-group subgraphs);
- the rule-based extraction of recommendations from a session analysis.

The modules follow the source:

| module | file | source |
|---|---|---|
| `Wrappers`, `Strings`, `Tasks` | wrappers.dfy, strings.dfy, tasks.dfy | option and result types; the Python string operations used (`strip`, `rstrip`, `split`, `join`, `lower`, `replace`, `in`, slicing); the task record and `task_dict` |
| `Levels` | levels.dfy | `calculate_levels`, as functions and as a memo class |
| `Reachability` | reachability.dfy | `_has_dependency_between` and its breadth-first `has_path` |
| `Clusters` | clusters.dfy | `_find_independent_groups` |
| `Groups` | groups.dfy | `ParallelGroup`, `detect_parallel_groups` |
| `CriticalPath` | critical_path.dfy | `calculate_critical_path`, as functions and as a memo class |
| `Plans` | execution_plan.dfy | `ExecutionPlan`, `get_execution_plan`, `analyze_tasks` |
| `Readiness` | readiness.dfy | every `find_ready_tasks`, `select_parallel_batch`, the `max_parallel` truncation |
| `PlanUpdates` | plan_updates.dfy | `update_migration_plan` |
| `Scenarios` | scenarios.dfy | the five-task plan of the simple runner's test and the six-task plan of the orchestration test |
| `PrUrls` | pr_urls.dfy | `parse_pr_url`, `extract_pr_urls_from_results` |
| `Mermaid` | mermaid.dfy | what both visualisation tools share: `infer_task_category`, the dependency arrows, the subgraphs, the set of grouped ids |
| `Visualize` | visualize.dfy | visualize.py's `escape_text` |
| `VisualizeV2` | visualize_v2.dfy | visualize_v2.py's `escape_text`, node labels and `generate_mermaid_code` |
| `Recommendations` | recommendations.dfy | `extract_recommendations_from_analysis` |

Each operation that the source writes as a loop or over mutable state is a `method` or a class,
proved equal to a specification function. What the source promises is then proved about that
function as lemmas:

- The memoised recursions of `calculate_levels` and `calculate_critical_path` become the classes
  `Levels.LevelMemo` and `CriticalPath.PathMemo`, whose fields are the memo dictionaries.
- `update_migration_plan` becomes the class `PlanUpdates.MigrationPlan`, whose task list the
  method updates.

Errors are values:

- a cycle makes `calculate_levels`, `detect_parallel_groups`, `get_execution_plan`,
  `analyze_tasks` and the batch selection return `Err` with the `ValueError` message;
- an unparsable URL gives `None`.

Duplicate ids are modelled as Python treats them: in `task_dict` the last record wins and the
key order is that of first occurrence (`Tasks.Keys`, `Tasks.Lookup`). Unique ids are required
only by the lemmas whose statement needs them.

A dictionary entry that is not a dictionary (`isinstance(item, dict)` failing) is
`Recommendations.Entry.NotRecord`. A missing key is `None`.

The code of both visualisation tools that is identical (category inference, arrows, subgraphs,
grouped ids) is modelled once, in `Mermaid`. Its rows cite tools/visualize_v2.py. The same
lines of tools/visualize.py are 87-98, 134-136, 204-208 and 213-225.

## Model

| member | source | states |
|---|---|---|
| Strings.LStrip | src/utils/github_pr_checker.py:20 | `strip()` on the left: a suffix of the string, all removed characters whitespace, no leading whitespace left |
| Strings.RStrip | src/utils/github_pr_checker.py:20 | `strip()` on the right: a prefix, all removed characters whitespace, no trailing whitespace left |
| Strings.RStripChar | src/utils/github_pr_checker.py:20 | `rstrip('/')`: a prefix, all removed characters '/', and no trailing '/' left |
| Strings.Split | src/utils/github_pr_checker.py:20 | `split('/')`: at least one part, no part contains the separator, and the parts joined with it give back the string |
| Strings.SplitJoin | src/utils/github_pr_checker.py:20 | splitting the join of separator-free parts gives back the parts |
| Strings.Contains | tools/visualize_v2.py:73-78 | `sub in s` holds exactly when `sub` occurs at some position of `s` |
| Strings.ToLower | tools/visualize_v2.py:71 | `lower()` keeps the length and lower-cases each character on its own |
| Strings.ToLowerIdempotent | tools/visualize_v2.py:71 | lower-casing twice is lower-casing once |
| Strings.Replace | tools/visualize_v2.py:85 | `replace(c, rep)` removes every `c` unless `rep` holds it, keeps every other character, keeps the length when `rep` is one character, and changes nothing without a `c` |
| Strings.ReplaceAppend | tools/visualize_v2.py:85 | replacing distributes over concatenation |
| Strings.SliceTo | tools/visualize_v2.py:116 | `s[:k]` is a prefix of length `min(k, len)`, and for negative `k` drops `-k` characters from the end |
| Strings.NatToString | tools/visualize_v2.py:121 | the decimal rendering in `f"{hours}h"` is non-empty and all digits, and starts with '0' only for zero |
| Strings.NatToStringValue | tools/visualize_v2.py:121 | reading the rendering back as a decimal number gives the number rendered |
| Strings.NatToStringOfDigits | tools/visualize_v2.py:121 | every digit string without a leading zero is the rendering of its value, so rendering is a bijection onto those strings |
| Tasks.Ids | src/utils/parallel_detector.py:76 | the ids of the list, index by index |
| Tasks.HoursOfAppend | src/utils/parallel_detector.py:338-341 | the hours of two id lists together are the sum of their hours |
| Tasks.MaxHoursOf | src/utils/parallel_detector.py:166 | the largest hours of no ids is 0 |
| Tasks.Keys | src/utils/parallel_detector.py:76 | the keys of `task_dict` are distinct and are exactly the ids of the list |
| Tasks.Lookup | src/utils/parallel_detector.py:76 | `task_dict[id]` is a record of the list with that id |
| Tasks.KeysOfUnique | src/utils/parallel_detector.py:76 | with unique ids the keys are the ids in list order |
| Tasks.LookupOfUnique | src/utils/parallel_detector.py:76 | with unique ids `task_dict[t.id]` is `t` |
| Tasks.PresentOnly | src/utils/parallel_detector.py:116 | `valid_deps` holds exactly the dependencies that are keys of `task_dict`, and is no longer than `depends_on` |
| Tasks.HoursOfReordered | src/utils/parallel_detector.py:338-341 | summing hours does not depend on the order of distinct ids |
| Tasks.TotalHoursOfUnique | src/utils/parallel_detector.py:338-341 | with unique ids, the hours of the list are the hours of its ids |
| Tasks.MaxHoursBound | src/utils/parallel_detector.py:166 | the largest hours of a list bound every member's hours and are at most their sum |
| Tasks.MaxHoursAttained | src/utils/parallel_detector.py:166 | the largest hours of a non-empty list are some member's hours |
| Levels.ComputeLevels | src/utils/parallel_detector.py:88-129 | on success, the key order lists only tasks of the list, each with a level |
| Levels.MaxLevel | src/utils/parallel_detector.py:120 | `max(get_level(dep) ...)` bounds the level of every dependency |
| Levels.MaxLevelAttained | src/utils/parallel_detector.py:120 | and is the level of one of them |
| Levels.VisitOk | src/utils/parallel_detector.py:99-124 | a successful `get_level` keeps the memo consistent, only extends it, records the task with the returned level and leaves the in-progress tasks unrecorded |
| Levels.VisitOkLeaf | src/utils/parallel_detector.py:112-118 | a new task without dependencies, or with none in the list, is recorded at level 0 and the memo stays consistent |
| Levels.VisitOkDeep | src/utils/parallel_detector.py:115-121 | a new task with in-set dependencies is recorded after them at one more than their largest level, and the memo stays consistent |
| Levels.RecordAfterDeps | src/utils/parallel_detector.py:120-121 | `levels[task_id] = max_dep_level + 1` after the dependencies keeps the memo consistent and only extends it |
| Levels.VisitAllOk | src/utils/parallel_detector.py:120 | a successful pass over the dependencies records each of them, and returns their largest level |
| Levels.VisitKeysOk | src/utils/parallel_detector.py:126-127 | a successful loop over the keys records every key |
| Levels.LevelsCorrect | src/utils/parallel_detector.py:96-129 | on success every supplied id gets exactly one level: 0 without in-set dependencies, else 1 + the largest level among them; dependencies are recorded before their dependents |
| Levels.LevelAboveDependencies | src/utils/parallel_detector.py:116-121 | a task's level is above the level of each of its in-set dependencies |
| Levels.LevelsUnique | src/utils/parallel_detector.py:112-121 | any other level assignment obeying the same rule agrees with the computed one |
| Levels.SameLevel | src/utils/parallel_detector.py:112-121 | two assignments obeying that rule agree on every id |
| Levels.VisitErr | src/utils/parallel_detector.py:103-105 | a failing `get_level` names a task that lies on a dependency cycle |
| Levels.VisitAllErr | src/utils/parallel_detector.py:120 | a failing pass over the dependencies names a task on a cycle |
| Levels.VisitKeysErr | src/utils/parallel_detector.py:126-127 | a failing loop over the keys names a task on a cycle |
| Levels.CycleReported | src/utils/parallel_detector.py:103-105 | when `calculate_levels` raises, the message names a task on a dependency cycle |
| Levels.LevelsRiseAlongChain | src/utils/parallel_detector.py:120-121 | levels strictly rise along a dependency chain |
| Levels.AcyclicIffNoCycle | src/utils/parallel_detector.py:103-107 | `calculate_levels` succeeds exactly when the supplied tasks have no dependency cycle, so a diamond is accepted |
| Levels.LevelMemo.constructor | src/utils/parallel_detector.py:96-97 | the memo and the in-progress set start empty |
| Levels.LevelMemo.GetLevel | src/utils/parallel_detector.py:99-124 | the nested `get_level` over the mutable memo returns, and leaves in the memo, what `Visit` computes; the in-progress set is restored |
| Levels.LevelMemo.Explore | src/utils/parallel_detector.py:107-124 | the branch of `get_level` for an unrecorded task that is not in progress agrees with `Visit` |
| Levels.LevelMemo.MaxDepLevel | src/utils/parallel_detector.py:120 | the maximum over `valid_deps` agrees with `VisitAll` |
| Levels.CalculateLevels | src/utils/parallel_detector.py:88-129 | `calculate_levels` returns `ComputeLevels` |
| Reachability.ReachesSelf | src/utils/parallel_detector.py:246-250 | every supplied task reaches itself, since `has_path` starts from `from` |
| Reachability.DirectReaches | src/utils/parallel_detector.py:257-261 | a direct in-set dependency is reachable |
| Reachability.ReachesStep | src/utils/parallel_detector.py:257-261 | following an in-set dependency keeps the target reachable |
| Reachability.ClosedHoldsReached | src/utils/parallel_detector.py:244-263 | a set closed under in-set dependencies holds everything reachable from its members |
| Reachability.Enqueue | src/utils/parallel_detector.py:259-261 | the queue grows by the dependencies that are keys of `task_dict`, in order |
| Reachability.HasPath | src/utils/parallel_detector.py:244-263 | the breadth-first `has_path` is true exactly when a chain of in-set dependencies leads from `from` to `to` |
| Reachability.HasDependencyBetween | src/utils/parallel_detector.py:225-265 | `_has_dependency_between(a, b)` is true exactly when either task reaches the other through in-set dependencies, so the answer does not depend on the argument order |
| Clusters.InFlatten | src/utils/parallel_detector.py:221 | an id is in the concatenated clusters exactly when it is in one of them |
| Clusters.GrowShape | src/utils/parallel_detector.py:206-219 | the inner loop only appends distinct, not yet used ids of the input, and marks exactly them as used |
| Clusters.GrowPairwise | src/utils/parallel_detector.py:211-219 | every id it appends is unrelated to every id already in the cluster |
| Clusters.GrowMaximal | src/utils/parallel_detector.py:206-219 | every later unused id is either taken or related to some member of the cluster (first fit) |
| Clusters.GroupsPartition | src/utils/parallel_detector.py:181-223 | the clusters hold every input id exactly once |
| Clusters.GroupsPermutation | src/utils/parallel_detector.py:181-223 | for distinct ids, the concatenated clusters are a permutation of the input |
| Clusters.GroupsIndependent | src/utils/parallel_detector.py:181-223 | no cluster is empty, and no two members of a cluster are dependency-related |
| Clusters.GroupsFirstFit | src/utils/parallel_detector.py:198-221 | an id in a later cluster is related to some member of each earlier cluster |
| Clusters.OneGroupWhenUnrelated | src/utils/parallel_detector.py:181-223 | distinct, pairwise unrelated ids form one cluster in input order |
| Clusters.CanAdd | src/utils/parallel_detector.py:211-215 | the `can_add` loop is true exactly when the candidate is unrelated to the whole cluster |
| Clusters.FindIndependentGroups | src/utils/parallel_detector.py:181-223 | the nested loops with the `used` set return `IndependentGroups` |
| Groups.Durations | src/utils/parallel_detector.py:157-160 | `durations` pairs each member with its hours (8 when missing), in member order |
| Groups.SumOfDurations | src/utils/parallel_detector.py:33 | the durations sum to the hours of the members |
| Groups.TimeSavedOfGroup | src/utils/parallel_detector.py:27-33 | for two or more members `time_saved` is their total hours minus the longest, and never negative |
| Groups.BucketMembers | src/utils/parallel_detector.py:141-143 | `tasks_by_level[l]` holds exactly the recorded ids at level `l` |
| Groups.BucketDistinct | src/utils/parallel_detector.py:141-143 | a level bucket has no repeated id |
| Groups.TopLevelBound | src/utils/parallel_detector.py:148 | no bucket exists above the highest level |
| Groups.StartOfMonotone | src/utils/parallel_detector.py:171-177 | the cumulative start never decreases from level to level |
| Groups.GroupMembers | src/utils/parallel_detector.py:152-154 | every cluster member is an id of the bucket |
| Groups.LevelPartOfOneGroup | src/utils/parallel_detector.py:154-169 | a bucket that is one cluster yields one group when it has two or more ids, none otherwise |
| Groups.ComputedIsLeveled | src/utils/parallel_detector.py:138 | the computed levels obey the level rule |
| Groups.SameLevelUnrelated | src/utils/parallel_detector.py:152 | two tasks at the same level are never dependency-related |
| Groups.LevelIsOneGroup | src/utils/parallel_detector.py:152 | so each non-empty level bucket is a single cluster |
| Groups.FullLevelsAscending | src/utils/parallel_detector.py:148 | the levels that yield a group come in ascending order |
| Groups.FullLevelsAbove | src/utils/parallel_detector.py:148-155 | each level that yields a group holds two or more tasks |
| Groups.FullLevelsHasAll | src/utils/parallel_detector.py:148-155 | every level with two or more tasks yields a group |
| Groups.DetectFromIsGroupsAt | src/utils/parallel_detector.py:148-177 | the level loop emits exactly one group per level with two or more tasks |
| Groups.DetectCorrect | src/utils/parallel_detector.py:131-179 | `detect_parallel_groups` is the list of those groups |
| Groups.GroupsAtFacts | src/utils/parallel_detector.py:148-177 | the groups have ascending levels and non-decreasing starts; each has two or more members, holds exactly the tasks at its level, is pairwise unrelated, and carries the longest hours and the durations of its members |
| Groups.FullLevelsComplete | src/utils/parallel_detector.py:148-155 | every level with two or more tasks has its group in the result |
| Groups.DetectFailsOnCycle | src/utils/parallel_detector.py:138 | `detect_parallel_groups` fails exactly when there is a cycle |
| Groups.GroupDurations | src/utils/parallel_detector.py:157-160 | the loop that fills `durations` returns `Durations` |
| Groups.LevelDuration | src/utils/parallel_detector.py:172-176 | the `level_duration` loop returns the longest hours at the level |
| Groups.BucketByLevel | src/utils/parallel_detector.py:141-143 | the loop that fills `tasks_by_level` builds every bucket and finds the highest level |
| Groups.EmitLevel | src/utils/parallel_detector.py:154-169 | the loop over a level's clusters returns `LevelGroups`: a group for each cluster of two or more, in cluster order |
| Groups.DetectLevel | src/utils/parallel_detector.py:149-177 | one level's iteration emits that level's groups and adds its longest hours to the start |
| Groups.DetectLevels | src/utils/parallel_detector.py:145-179 | the loop over the sorted levels returns the specified groups |
| Groups.DetectParallelGroups | src/utils/parallel_detector.py:131-179 | `detect_parallel_groups` returns `DetectSpec`: an error on a cycle, else the groups |
| CriticalPath.Rank | src/utils/parallel_detector.py:278-303 | without a cycle, a ranking exists under which every in-set dependency ranks below its dependent, so the recursion terminates |
| CriticalPath.LongestPathIsChain | src/utils/parallel_detector.py:278-303 | `get_longest_path(id)` is a dependency chain ending at `id`, and its time is the sum of the chain's hours |
| CriticalPath.BestDepIsChain | src/utils/parallel_detector.py:290-298 | the chosen dependency path is empty or a chain of supplied tasks ending at a direct dependency of the task, and its time is its summed hours |
| CriticalPath.BestDepAtLeast | src/utils/parallel_detector.py:290-298 | the chosen dependency path is at least as long as that of every in-set dependency |
| CriticalPath.LongestPathAtLeast | src/utils/parallel_detector.py:283-300 | a task's longest path is at least its own hours |
| CriticalPath.LongestPathAboveDep | src/utils/parallel_detector.py:293-300 | it is at least any in-set dependency's longest path plus the task's hours |
| CriticalPath.ChainBounded | src/utils/parallel_detector.py:278-303 | no dependency chain into a task is longer than that task's longest path |
| CriticalPath.CriticalFromMax | src/utils/parallel_detector.py:306-313 | the outer loop keeps a time at least that of every task's longest path |
| CriticalPath.CriticalFromFirst | src/utils/parallel_detector.py:309-313 | the loop keeps its start value, or moves to a strictly longer path of the first key that reaches the result |
| CriticalPath.CriticalIsChain | src/utils/parallel_detector.py:267-315 | the critical path is empty exactly when its time is 0, is otherwise a dependency chain of supplied tasks, and its time is the sum of its hours |
| CriticalPath.CriticalIsLongest | src/utils/parallel_detector.py:267-315 | no dependency chain is longer than the critical path |
| CriticalPath.CriticalIsFirst | src/utils/parallel_detector.py:309-313 | a non-empty critical path belongs to the first key whose longest path reaches the maximum (strict `>`) |
| CriticalPath.CriticalOfEmpty | src/utils/parallel_detector.py:306-315 | an empty task list gives `([], 0)` |
| CriticalPath.CriticalOfZeroHours | src/utils/parallel_detector.py:306-315 | if every task has zero hours, the critical path is `([], 0)` |
| CriticalPath.LongestPathOfLeaf | src/utils/parallel_detector.py:286-288 | a task without dependencies has its own hours and the path `[id]` |
| CriticalPath.LongestPathOfDeps | src/utils/parallel_detector.py:289-301 | otherwise it has the chosen dependency path plus itself |
| CriticalPath.MemoRecord | src/utils/parallel_detector.py:300-301 | recording a longest path keeps the memo tables correct |
| CriticalPath.PathMemo.constructor | src/utils/parallel_detector.py:275-276 | `task_times` and `task_paths` start empty |
| CriticalPath.PathMemo.GetLongestPath | src/utils/parallel_detector.py:278-303 | the memoised `get_longest_path` returns `LongestPath` and keeps the memo correct |
| CriticalPath.PathMemo.BestOfDeps | src/utils/parallel_detector.py:290-298 | the loop over the dependencies returns the strict-`>` best dependency path |
| CriticalPath.CalculateCriticalPath | src/utils/parallel_detector.py:267-315 | `calculate_critical_path` returns `CriticalSpec` |
| Plans.GroupedIdsMembers | src/utils/parallel_detector.py:328-330 | `parallel_task_ids` holds exactly the members of the groups |
| Plans.SerialTasksMembers | src/utils/parallel_detector.py:332-335 | `serial_tasks` lists, in list order, exactly the ids that no group holds |
| Plans.EntriesSplit | src/utils/parallel_detector.py:332-335 | the serial entries and the grouped entries together make up the list |
| Plans.LargestSize | src/utils/parallel_detector.py:355-358 | the largest group size bounds every group and is one group's size |
| Plans.PlanParts | src/utils/parallel_detector.py:324-325 | a plan exists exactly when there is no cycle, and it carries the detected groups and the critical path |
| Plans.PlanSerial | src/utils/parallel_detector.py:327-341 | `total_duration_serial` is the sum of hours over the list, and `serial_tasks` are the ids in no group |
| Plans.PlanParallelism | src/utils/parallel_detector.py:355-358 | `max_parallelism` is 1 without groups; otherwise it is the largest group size, at least 2 |
| Plans.PlanParallelHours | src/utils/parallel_detector.py:343-352 | `total_duration_parallel` is the sum over levels of each level's longest hours |
| Plans.BucketHoursAll | src/utils/parallel_detector.py:343-352 | the hours of all level buckets together are the hours of all recorded ids |
| Plans.ParallelAtMostSerial | src/utils/parallel_detector.py:338-352 | with unique ids the parallel hours are at most the serial hours |
| Plans.PlanSavesTime | src/utils/parallel_detector.py:52-62 | with unique ids `time_saved` is never negative and `efficiency_gain` lies between 0 and 100 |
| Plans.CollectGrouped | src/utils/parallel_detector.py:328-330 | the loop returns `parallel_task_ids` |
| Plans.LevelDurations | src/utils/parallel_detector.py:345-350 | the loop fills `level_durations[l]` with the longest hours at level `l` |
| Plans.SumDurationsByLevel | src/utils/parallel_detector.py:352 | summing `level_durations` gives the parallel hours |
| Plans.SerialHours | src/utils/parallel_detector.py:338-341 | the serial sum is `TotalHours` |
| Plans.GetExecutionPlan | src/utils/parallel_detector.py:317-368 | `get_execution_plan` returns `PlanSpec` |
| Plans.AnalysisCounts | src/utils/parallel_detector.py:384-388 | `total_tasks` is the list length, and `parallelizable_tasks` counts the grouped entries, so it and `serial_tasks` add up to the total |
| Plans.AnalysisDetail | src/utils/parallel_detector.py:397-406 | each `parallel_groups_detail` entry has its group's level, tasks, a size of at least 2, and a `time_saved` that is the total minus the longest hours, never negative |
| Readiness.CandidateNotDone | src/orchestrate_deterministic.py:191-197 | a candidate never has the finished status in the status map |
| Readiness.StatusMapLookup | src/orchestrate_deterministic.py:191 | the status map has exactly the plan's ids as keys, each with the status (or the default) of its last record |
| Readiness.ReadyFromAppend | src/orchestrate_deterministic.py:193-204 | the ready tasks keep the plan's order |
| Readiness.ReadyFromMembers | src/orchestrate_deterministic.py:193-204 | the filter keeps exactly the tasks that pass the readiness test |
| Readiness.ReadyMembers | src/orchestrate_deterministic.py:191-204 | a task is ready exactly when it is in the plan, is a candidate for the rule, and every dependency is a plan id whose status is the finished word; an unknown id blocks |
| Readiness.ReadyFromUnique | src/orchestrate_deterministic.py:193-204 | ready tasks of a plan with unique ids have unique ids |
| Readiness.FindReady | src/orchestrate_deterministic.py:188-204 | the loop returns `Ready` for the given status rule |
| Readiness.FindReadyDeterministic | src/orchestrate_deterministic.py:181-204 | the deterministic orchestrator never returns a "complete" task, and each returned task depends only on plan ids |
| Readiness.FindReadySimple | z-archived-tests/simple_parallel_runner.py:37-55 | the simple runner returns `Ready` under its rule, and only plan tasks whose status (default "pending") is "pending" |
| Readiness.TasksInMembers | src/orchestrate_deterministic.py:237 | the comprehension keeps exactly the ready tasks whose id was selected |
| Readiness.SelectParallelBatch | src/orchestrate_deterministic.py:207-241 | `select_parallel_batch` returns `SelectBatch`; no ready task gives an empty batch and a single one gives itself |
| Readiness.ArchivedBatchAgrees | z-archived-tests/orchestrate_migration_v2.py:109-125 | the archived batching, with its `ready[:1]` for one or no task, picks what `select_parallel_batch` picks with that limit |
| Readiness.FindReadyMigration | src/orchestrate_migration.py:38-81 | the migration orchestrator filters with its "not-complete" rule, then batches with `max_parallel` |
| Readiness.FindReadyArchived | z-archived-tests/orchestrate_migration_v2.py:88-130 | the archived orchestrator filters with its "pending" rule, then batches as written there |
| Readiness.Truncate | z-archived-tests/simple_parallel_runner.py:127-129 | the truncation keeps a prefix of the ready list, of length `max_parallel` when it was longer |
| Readiness.TasksInBound | src/orchestrate_deterministic.py:237 | with unique ids, no more tasks are selected than ids |
| Readiness.SelectIndependent | src/orchestrate_deterministic.py:228-241 | the batch is drawn from the ready tasks, and no two of its tasks are dependency-related |
| Readiness.SelectBound | src/orchestrate_migration.py:69-79 | with unique ids and a limit of at least 1, the batch never exceeds `max_parallel` tasks |
| Readiness.ReadyHaveNoInnerDeps | src/orchestrate_deterministic.py:196-201 | with unique ids, no ready task depends on another ready task, because dependencies must be finished and ready tasks are not |
| Readiness.NoInnerDeps | src/orchestrate_deterministic.py:196-201 | such a list has no cycle, and no task has in-set dependencies |
| Readiness.UnrelatedOneGroup | src/orchestrate_deterministic.py:223-229 | two or more unique tasks without in-set dependencies give one parallel group that holds every one of them |
| Readiness.UnrelatedAllSelected | src/orchestrate_deterministic.py:228-237 | two or more unique tasks without in-set dependencies are all selected when the limit allows |
| Readiness.ReadyAllSelected | src/orchestrate_deterministic.py:231-233 | applied to two or more ready tasks of a plan with unique ids and no binding limit, `select_parallel_batch` returns all of them |
| Scenarios.FirstRound | z-archived-tests/test_simple_runner.py:91-101 | on the five-task sample plan the simple runner finds exactly validator_001 and validator_002, in that order |
| Scenarios.SecondRound | z-archived-tests/test_simple_runner.py:111-121 | after both validators are marked completed, migrate_001 is the only ready task |
| Scenarios.ReadyIsNextStage | z-archived-tests/orchestrate_migration_v2.py:92-105 | on a two-chain plan with unique ids whose first k stages are completed, the "pending" rule finds exactly stage k in plan order, and nothing once all three are completed |
| Scenarios.CompleteStage | z-archived-tests/test_orchestration_mvp.py:111-113 | marking the ids of stage k completed completes that stage, keeps the shape and unique ids, and leaves the later records as they were |
| Scenarios.StagesAfter | z-archived-tests/test_orchestration_mvp.py:111-139 | after k stage completions exactly the first k stages are completed and the later records are the original ones |
| Scenarios.RoundBatch | z-archived-tests/orchestrate_migration_v2.py:88-130 | after k < 3 completions the batch under `max_parallel=3` is stage k as in the original plan, and after three it is empty |
| Scenarios.AllStagesCompleted | z-archived-tests/test_orchestration_mvp.py:146-148 | after the three completions every task has the status "completed" |
| Scenarios.MvpPlanShape | z-archived-tests/test_orchestration_mvp.py:16-89 | the six-task sample has the two-chain shape, unique ids and nothing completed, and its stages are the setup, validator and migration ids |
| Scenarios.MvpCompletions | z-archived-tests/test_orchestration_mvp.py:109-139 | the test's three status loops are the three stage completions of the sample |
| Scenarios.MvpFirstIteration | z-archived-tests/test_orchestration_mvp.py:102-107 | iteration 1 with `max_parallel=3` returns setup_001 and setup_002 |
| Scenarios.MvpSecondIteration | z-archived-tests/test_orchestration_mvp.py:115-120 | after the setup tasks are completed, iteration 2 returns validator_001 and validator_002 |
| Scenarios.MvpThirdIteration | z-archived-tests/test_orchestration_mvp.py:128-133 | after the validators are completed, iteration 3 returns migrate_001 and migrate_002 |
| Scenarios.MvpLastIteration | z-archived-tests/test_orchestration_mvp.py:141-148 | after the migrations are completed, iteration 4 returns no task and every task is completed |
| PlanUpdates.MarkCompleted | z-archived-tests/orchestrate_migration_v2.py:209-212 | the update keeps the number of tasks |
| PlanUpdates.MarkCompletedEffect | z-archived-tests/orchestrate_migration_v2.py:209-212 | only the status can change: named tasks become "completed" and the others are unchanged |
| PlanUpdates.MarkCompletedKeepsIds | z-archived-tests/orchestrate_migration_v2.py:209-212 | the ids and dependencies, and so the dependency graph, are kept |
| PlanUpdates.MarkCompletedIdempotent | z-archived-tests/orchestrate_migration_v2.py:209-212 | updating twice with the same ids is updating once |
| PlanUpdates.MigrationPlan.constructor | z-archived-tests/orchestrate_migration_v2.py:209 | the plan holds the given tasks |
| PlanUpdates.MigrationPlan.UpdateMigrationPlan | z-archived-tests/orchestrate_migration_v2.py:204-227 | the task records are updated in place to `MarkCompleted`, and the same plan object is returned |
| PrUrls.Normalized | src/utils/github_pr_checker.py:20 | after `strip().rstrip('/')` no trailing slash is left |
| PrUrls.Segments | src/utils/github_pr_checker.py:20 | the '/'-parts, joined back with '/', give the normalised URL |
| PrUrls.PullSegments | src/utils/github_pr_checker.py:21-26 | a result needs seven or more parts, and its number is the last part |
| PrUrls.ParsePrUrl | src/utils/github_pr_checker.py:10-29 | a parsed owner, repo or number never contains '/' |
| PrUrls.ParsePrUrlSound | src/utils/github_pr_checker.py:20-26 | a parsed URL is, once normalised, three or more slash-free parts followed by owner, repo, "pull" and number |
| PrUrls.ParsePrUrlComplete | src/utils/github_pr_checker.py:20-29 | every normalised URL of that shape parses to exactly that owner, repo and number; anything else gives `None` |
| PrUrls.ParsePullRequestUrl | src/utils/github_pr_checker.py:14-26 | `https://<host>/<owner>/<repo>/pull/<number>` with slash-free parts and a non-empty number without trailing whitespace parses back to owner, repo and number; the number is not checked for digits |
| PrUrls.ParseIgnoresTrailingSpace | src/utils/github_pr_checker.py:20 | a whitespace character after the URL, U+001C to U+001F included, does not change the parse |
| PrUrls.ParseWithFileSeparator | src/utils/github_pr_checker.py:20-26 | a pull-request URL followed by U+001C still parses to its owner, repository and number |
| PrUrls.ParseIgnoresTrailingSlash | src/utils/github_pr_checker.py:20 | for a non-empty URL without surrounding whitespace, an added trailing '/' does not change the result |
| PrUrls.UrlsOf | src/utils/github_pr_checker.py:175-177 | one result yields at most one URL per PR |
| PrUrls.UrlsOfCount | src/utils/github_pr_checker.py:175-177 | one result yields exactly as many URLs as it has PRs with a truthy `pr_url`, counted independently from the front of the list |
| PrUrls.PrUrlsCount | src/utils/github_pr_checker.py:172-178 | the output length is the number of PRs with a truthy `pr_url`, summed over the results that have `prs` |
| PrUrls.UrlsOfMembers | src/utils/github_pr_checker.py:175-177 | the URLs of one result are exactly the truthy `pr_url`s of its PRs |
| PrUrls.PrUrlsMembers | src/utils/github_pr_checker.py:172-178 | a URL is extracted exactly when some result with `prs` reports it |
| PrUrls.PrUrlsAppend | src/utils/github_pr_checker.py:172-178 | the URLs come in result order, then PR order |
| PrUrls.ExtractPrUrls | src/utils/github_pr_checker.py:163-178 | the nested loops return `PrUrlsOf` |
| Mermaid.CategoryIgnoresCase | tools/visualize_v2.py:71 | the category depends only on the lower-cased id |
| Mermaid.CategoryOfValidator | tools/visualize_v2.py:73-76 | "validator" is chosen exactly when the lower-cased id contains "valid" but neither "setup" nor "pre_" |
| Mermaid.CategoryNeedsKeyword | tools/visualize_v2.py:73-80 | an id shorter than four characters, the empty one included, is "other" |
| Mermaid.CountOf | tools/visualize.py:236-239 | no category counts more tasks than the list holds |
| Mermaid.CountsSum | tools/visualize.py:236-239 | the four category counts add up to the number of tasks |
| Mermaid.CountCategories | tools/visualize.py:236-239 | the tally has exactly the four category names as keys, each with its count |
| Mermaid.EdgesOf | tools/visualize_v2.py:155-156 | one arrow `    D --> T` per `depends_on` entry of the task, in order |
| Mermaid.DependencyLinesAppend | tools/visualize_v2.py:153-156 | the arrows keep the task order |
| Mermaid.DependencyLinesMembers | tools/visualize_v2.py:153-156 | a line is an arrow exactly when it joins some task and one of its dependencies, ids outside the list included |
| Mermaid.EmitDependencies | tools/visualize_v2.py:153-156 | the loop returns `DependencyLines` |
| Mermaid.MemberLines | tools/visualize_v2.py:166-167 | one indented line per group member, in order |
| Mermaid.Block | tools/visualize_v2.py:164-169 | a subgraph has its members plus four lines |
| Mermaid.SubgraphLinesCount | tools/visualize_v2.py:162-169 | only groups with more than one task produce lines, so with none of them there are no subgraph lines |
| Mermaid.SubgraphListsMembers | tools/visualize_v2.py:162-169 | every member of such a group is listed |
| Mermaid.EmitSubgraphs | tools/visualize_v2.py:162-169 | the loop over the groups returns `SubgraphLines` |
| Mermaid.ParallelIdsMembers | tools/visualize_v2.py:105-107 | `tasks_in_parallel` holds exactly the members of the group details |
| Mermaid.CollectParallelIds | tools/visualize_v2.py:105-107 | the loop returns `ParallelIds` |
| Visualize.Clean | tools/visualize.py:104-105 | the cleaned text has no `"`, line feed, carriage return, `(` or `)` |
| Visualize.EscapeText | tools/visualize.py:101-111 | the result has none of those characters, and for `max_len` of at least 3 is at most `max_len` long |
| Visualize.CleanLength | tools/visualize.py:104-105 | cleaning keeps the length |
| Visualize.CleanCharwise | tools/visualize.py:104-105 | each character is mapped on its own: `"` to `'`, line breaks to spaces, round to square brackets |
| Visualize.CleanOfEscaped | tools/visualize.py:104-105 | clean text is left as it is |
| Visualize.EscapeTextShape | tools/visualize.py:104-111 | short text keeps its length; longer text becomes its first `max_len - 3` mapped characters followed by "..." |
| Visualize.EscapeTextIdempotent | tools/visualize.py:101-111 | escaping twice with the same limit is escaping once |
| VisualizeV2.EscapeText | tools/visualize_v2.py:83-85 | the result has no `"`, line feed, `(` or `)`, and is no longer than the input |
| VisualizeV2.EscapeTextAppend | tools/visualize_v2.py:85 | escaping distributes over concatenation |
| VisualizeV2.EscapeTextIsCharwise | tools/visualize_v2.py:85 | the four replacements are one character-by-character map |
| VisualizeV2.EscapeKeepsCarriageReturn | tools/visualize_v2.py:85 | carriage returns are kept |
| VisualizeV2.EscapeTextIdempotent | tools/visualize_v2.py:83-85 | escaping twice is escaping once |
| VisualizeV2.LabelHours | tools/visualize_v2.py:117-121 | the third label part is the task's `estimated_hours` (8 when absent) in decimal, followed by "h" |
| VisualizeV2.LabelPartsShape | tools/visualize_v2.py:116-127 | a label has three parts, four exactly for a validator with a mechanism; it starts with the id, and its title part is the escaped first 40 characters plus "..." |
| VisualizeV2.NodeLinesMembers | tools/visualize_v2.py:114-147 | every task gets its node line, and gets its styling line whenever its id is on the critical path or in a group |
| VisualizeV2.BlockInLines | tools/visualize_v2.py:114-147 | every line of a task's block is one of the node lines |
| VisualizeV2.NodeLinesCount | tools/visualize_v2.py:114-147 | each task gets one to three lines |
| VisualizeV2.EmitBlock | tools/visualize_v2.py:140-147 | one iteration appends the node line, then a critical and a parallel styling line exactly when the id is in those sets |
| VisualizeV2.EmitNodes | tools/visualize_v2.py:114-147 | the node loop returns `NodeLines` |
| VisualizeV2.DiagramFacts | tools/visualize_v2.py:91-156 | the diagram starts with "graph TD" and holds an arrow for every dependency entry |
| VisualizeV2.GenerateMermaidCode | tools/visualize_v2.py:88-171 | `generate_mermaid_code` returns the diagram lines joined by line feeds |
| Recommendations.ActionsPartition | z-archived-tests/test_extract_recommendations.py:39-61 | every record action item lands in exactly one of the three buckets |
| Recommendations.ActionsInMembers | z-archived-tests/test_extract_recommendations.py:39-61 | an entry is in a bucket exactly when a record item's type ("general" when missing) maps there: machine_setup/external to immediate, knowledge to improvements, anything else to migration fixes |
| Recommendations.IssuesPartition | z-archived-tests/test_extract_recommendations.py:64-92 | every record issue adds exactly one entry, a critical fix or a migration fix |
| Recommendations.IssueFixesNumbered | z-archived-tests/test_extract_recommendations.py:64-92 | the migration fixes are exactly the record issues whose impact is not "high", numbered by 1-based position, with non-records consuming an index |
| Recommendations.FixPriority | z-archived-tests/test_extract_recommendations.py:72-92 | such a fix has its impact as priority and its position as `issue_id` |
| Recommendations.PromptEntriesExact | z-archived-tests/test_extract_recommendations.py:95-107 | `next_session_approach` gets one entry exactly when the suggestion is a record with a non-empty prompt |
| Recommendations.ClassifyCases | z-archived-tests/test_extract_recommendations.py:114-129 | a title is a failure exactly when it has a failure word and no fix word, and a success exactly when it has a success word and no failure word |
| Recommendations.ErrorFixedIsNeither | z-archived-tests/test_extract_recommendations.py:120-129 | "Error fixed" is neither a failure nor a success |
| Recommendations.EventsSplit | z-archived-tests/test_extract_recommendations.py:114-129 | each record event falls in exactly one of the three outcomes |
| Recommendations.ExtractedCounts | z-archived-tests/test_extract_recommendations.py:31-150 | every record action item and issue yields one entry in the first three lists; at most two pattern entries are added, and some are added exactly when a failure or success was seen |
| Recommendations.SortActionItems | z-archived-tests/test_extract_recommendations.py:39-61 | the action-item loop fills the three buckets as `ActionsIn` does |
| Recommendations.SortIssues | z-archived-tests/test_extract_recommendations.py:64-92 | the issue loop yields `CriticalFixes` and `IssueFixes` |
| Recommendations.SplitTimeline | z-archived-tests/test_extract_recommendations.py:110-129 | the timeline loop yields the failed and the successful events |
| Recommendations.ExtractRecommendations | z-archived-tests/test_extract_recommendations.py:22-150 | `extract_recommendations_from_analysis` returns `Extracted`, whose four fields are the four keys |

## Left out

- I/O, networking, sleeping and concurrency (session polling, PR status, plan loading,
  Prefect flows and futures, logging) are not modelled. The model takes the plan and the session
  results as values.
- The node-label word wrap of tools/visualize.py and its node shapes and preamble are not
  modelled. Only its category inference, `escape_text`, arrows and subgraphs are.
- `generate_html`, the other HTML and Markdown renderers, and the prompt builders are not
  modelled. They are presentation only; only the category tally of `generate_html` is modelled.
- Tasks.Hours: `estimated_hours` is modelled as a natural number. Fractional and
  negative hours are outside the model, and Plans.ParallelAtMostSerial and Plans.PlanSavesTime
  rely on that. A fractional value would also render as, say, "4.5h" rather than a numeral.
- `_build_reverse_dependencies` is computed but never read, so it is not modelled.
- Plans.PlanSavesTime: `efficiency_gain` is a real, exact ratio. The float arithmetic and the
  `round(..., 1)` of `analyze_tasks` are not modelled.
- CriticalPath.CalculateCriticalPath: requires the tasks to have no cycle. On a cycle the source
  recurses until Python's stack overflows; no analyzer caller reaches it there, because
  `get_execution_plan` runs `detect_parallel_groups` first and that raises on the cycle.
- Plans.ParallelAtMostSerial: stated for unique ids only. With duplicate ids the serial sum
  counts every list entry while the levels see one record per id.
- Readiness.SelectBound: stated for unique ids and a limit of at least 1. With duplicate ids
  more records than selected ids can pass the comprehension. At limit 0 the group branch selects
  nothing, but a single ready task and the no-group fallback `ready_tasks[:1]` still return one
  task. A negative limit slices the group's ids from the end, as Python does.
- Strings.ToLower: lower-cases ASCII letters only.
- Strings.LStrip: `strip()` is modelled as removing the ASCII characters Python's `isspace()`
  accepts: space, U+0009 to U+000D and U+001C to U+001F. Whitespace outside ASCII (U+0085,
  U+00A0, U+2028 and the others Python also strips) is kept.
- Strings.RStrip: the same character set as Strings.LStrip, at the other end.
- `parse_pr_url`'s `try`/`except` is not modelled: on a string argument the guarded code cannot
  raise, and non-string arguments are outside these types.
- Recommendations: a `suggested_prompt` that is a non-empty dictionary without the prompt key,
  and the truthiness of non-dictionary values, are modelled through `Entry`/`Option`. An
  `issue_id` that is not a string in an action item is not modelled.
