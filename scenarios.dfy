/** The sample plans of the archived tests, worked through the ready-task rule, the batching of
    the archived orchestrator and the plan update: the five-task plan of the simple runner's test
    and the six-task plan of the orchestration test. */
module Scenarios {
  import opened Wrappers
  import opened Tasks
  import opened Readiness
  import opened PlanUpdates

  function Sample(id: string, title: string, status: string, deps: seq<string>, check: string): Task {
    Task(id, deps, None, Some(status), Some(title), None, Some(check))
  }

  /** Two finished setup tasks, two pending validators each waiting on one of them, and a
      pending migration waiting on the first validator. */
  const RunnerPlan: seq<Task> := [
    Sample("setup_001", "Setup Monitoring", "completed", [], "Check dashboards"),
    Sample("setup_002", "Setup CI/CD", "completed", [], "Builds pass"),
    Sample("validator_001", "Create Customer Tests", "pending", ["setup_001"], "90% coverage"),
    Sample("validator_002", "Create Account Tests", "pending", ["setup_002"], "90% coverage"),
    Sample("migrate_001", "Migrate Customer Service", "pending", ["validator_001"], "Tests pass")]

  /** Both validators are ready and the migration is not. */
  lemma FirstRound()
    ensures var r := Ready(RunnerPlan, Archived);
      |r| == 2 && r[0].id == "validator_001" && r[1].id == "validator_002"
  {
    var p := RunnerPlan;
    var m := StatusMap(p, "pending");
    RunnerStatuses();
    ReadyOfFive(m, Archived, p);
    DepsDoneSingle(m, "setup_001", "completed");
    DepsDoneSingle(m, "setup_002", "completed");
    DepsDoneSingle(m, "validator_001", "completed");
    assert Kept(m, Archived, p[0]) == [] && Kept(m, Archived, p[1]) == [];
    assert Kept(m, Archived, p[2]) == [p[2]] && Kept(m, Archived, p[3]) == [p[3]];
    assert Kept(m, Archived, p[4]) == [];
    assert ReadyFrom(m, Archived, p) == [p[2], p[3]];
  }

  lemma RunnerStatuses()
    ensures var m := StatusMap(RunnerPlan, "pending");
      && "setup_001" in m && m["setup_001"] == "completed"
      && "setup_002" in m && m["setup_002"] == "completed"
      && "validator_001" in m && m["validator_001"] == "pending"
  {
    StatusMapOfFive(RunnerPlan, "pending");
  }

  /** A single dependency is done exactly when the map gives it the finished status. */
  lemma DepsDoneSingle(m: map<string, string>, d: string, done: string)
    ensures DepsDone(m, [d], done) <==> d in m && m[d] == done
  {
    assert d in [d];
  }

  /** Once both validators are marked completed, the migration is the only ready task. */
  lemma SecondRound()
    ensures var r := Ready(MarkCompleted(RunnerPlan, ["validator_001", "validator_002"]), Archived);
      |r| == 1 && r[0].id == "migrate_001"
  {
    var p := RunnerPlan;
    var q := MarkCompleted(p, ["validator_001", "validator_002"]);
    assert q == [p[0], p[1], p[2].(status := Some("completed")), p[3].(status := Some("completed")), p[4]];
    var m := StatusMap(q, "pending");
    StatusMapOfFive(q, "pending");
    assert m["validator_001"] == "completed";
    ReadyOfFive(m, Archived, q);
    assert Kept(m, Archived, q[0]) == [] && Kept(m, Archived, q[1]) == [];
    assert Kept(m, Archived, q[2]) == [] && Kept(m, Archived, q[3]) == [];
    assert Kept(m, Archived, q[4]) == [q[4]];
    assert ReadyFrom(m, Archived, q) == [p[4]];
  }

  /** The status map of a five-task list, written out. */
  lemma StatusMapOfFive(ts: seq<Task>, fallback: string)
    requires |ts| == 5
    ensures StatusMap(ts, fallback)
      == map[ts[0].id := ts[0].status.GetOr(fallback)][ts[1].id := ts[1].status.GetOr(fallback)]
            [ts[2].id := ts[2].status.GetOr(fallback)][ts[3].id := ts[3].status.GetOr(fallback)]
            [ts[4].id := ts[4].status.GetOr(fallback)]
  {
    var f := fallback;
    assert ts[..1][..0] == [];
    assert StatusMap(ts[..1], f) == map[ts[0].id := ts[0].status.GetOr(f)];
    assert ts[..2][..1] == ts[..1];
    assert StatusMap(ts[..2], f) == StatusMap(ts[..1], f)[ts[1].id := ts[1].status.GetOr(f)];
    assert ts[..3][..2] == ts[..2];
    assert StatusMap(ts[..3], f) == StatusMap(ts[..2], f)[ts[2].id := ts[2].status.GetOr(f)];
    assert ts[..4][..3] == ts[..3];
    assert StatusMap(ts[..4], f) == StatusMap(ts[..3], f)[ts[3].id := ts[3].status.GetOr(f)];
    assert ts[..5][..4] == ts[..4];
    assert ts[..5] == ts;
  }

  /** The ready tasks of a five-task list, written out. */
  lemma ReadyOfFive(m: map<string, string>, rule: StatusRule, ts: seq<Task>)
    requires |ts| == 5
    ensures ReadyFrom(m, rule, ts)
      == Kept(m, rule, ts[0]) + (Kept(m, rule, ts[1]) + (Kept(m, rule, ts[2]) + (Kept(m, rule, ts[3]) + Kept(m, rule, ts[4]))))
  {
    assert ts[0..] == ts;
    ReadyFromStep(m, rule, ts, 0);
    ReadyFromStep(m, rule, ts, 1);
    ReadyFromStep(m, rule, ts, 2);
    ReadyFromStep(m, rule, ts, 3);
    ReadyFromStep(m, rule, ts, 4);
    assert ts[5..] == [];
  }

  lemma ReadyFromStep(m: map<string, string>, rule: StatusRule, xs: seq<Task>, k: nat)
    requires k < |xs|
    ensures ReadyFrom(m, rule, xs[k..]) == Kept(m, rule, xs[k]) + ReadyFrom(m, rule, xs[k + 1..])
  {
    assert xs[k..][1..] == xs[k + 1..];
  }

  // ---------------------------------------------------------------------------------------
  // The six-task plan of the orchestration test

  /** A pending task of the sample; its title, content and validation text are not read by the
      ready-task rule and are left out. */
  function Staged(id: string, deps: seq<string>, hours: nat): Task {
    Task(id, deps, Some(hours), Some("pending"), None, None, None)
  }

  /** Two setup tasks, a validator on each, and a migration on each validator. */
  const MvpPlan: seq<Task> := [
    Staged("setup_001", [], 4),
    Staged("setup_002", [], 4),
    Staged("validator_001", ["setup_001"], 6),
    Staged("validator_002", ["setup_002"], 6),
    Staged("migrate_001", ["validator_001"], 8),
    Staged("migrate_002", ["validator_002"], 8)]

  const SetupIds: seq<string> := ["setup_001", "setup_002"]
  const ValidatorIds: seq<string> := ["validator_001", "validator_002"]
  const MigrateIds: seq<string> := ["migrate_001", "migrate_002"]

  /** The plan after each simulated completion. */
  const AfterSetup: seq<Task> := MarkCompleted(MvpPlan, SetupIds)
  const AfterValidators: seq<Task> := MarkCompleted(AfterSetup, ValidatorIds)
  const AfterMigrations: seq<Task> := MarkCompleted(AfterValidators, MigrateIds)

  /** The shape of that plan: tasks `2 * k` and `2 * k + 1` make up stage `k`, and every task
      after the first stage depends on the task of its chain one stage earlier. */
  predicate TwoChains(p: seq<Task>) {
    && |p| == 6
    && p[0].dependsOn == [] && p[1].dependsOn == []
    && p[2].dependsOn == [p[0].id] && p[3].dependsOn == [p[1].id]
    && p[4].dependsOn == [p[2].id] && p[5].dependsOn == [p[3].id]
  }

  /** The first `k` stages are "completed" and the others "pending". */
  predicate StagesDone(p: seq<Task>, k: nat)
    requires |p| == 6
  {
    forall i :: 0 <= i < 6 ==> p[i].status == Some(if i < 2 * k then "completed" else "pending")
  }

  /** The plan after the test has marked the first `k` stages completed, one stage at a time. */
  function AfterStages(p: seq<Task>, k: nat): (r: seq<Task>)
    requires |p| == 6 && k <= 3
    ensures |r| == 6
  {
    if k == 0 then p else MarkCompleted(AfterStages(p, k - 1), [p[2 * k - 2].id, p[2 * k - 1].id])
  }

  /** With the stages before `k` completed, the archived rule finds exactly stage `k`, in plan
      order; with all three completed it finds nothing. */
  lemma ReadyIsNextStage(p: seq<Task>, k: nat)
    requires TwoChains(p) && UniqueIds(p) && k <= 3 && StagesDone(p, k)
    ensures Ready(p, Archived) == if k < 3 then [p[2 * k], p[2 * k + 1]] else []
  {
    StagedStatusMap(p, k);
    ReadyFromStage(p, k, StatusMap(p, "pending"));
  }

  /** The filter over a two-chain plan keeps stage `k`, given the status of each stage. */
  lemma ReadyFromStage(p: seq<Task>, k: nat, m: map<string, string>)
    requires TwoChains(p) && k <= 3 && StagesDone(p, k)
    requires forall j :: 0 <= j < 6 ==> p[j].id in m && m[p[j].id] == if j < 2 * k then "completed" else "pending"
    ensures ReadyFrom(m, Archived, p) == if k < 3 then [p[2 * k], p[2 * k + 1]] else []
  {
    KeptInStage(p, k, m, 0);
    KeptInStage(p, k, m, 1);
    KeptInStage(p, k, m, 2);
    KeptInStage(p, k, m, 3);
    KeptInStage(p, k, m, 4);
    KeptInStage(p, k, m, 5);
    ReadyFromKept(p, k, m);
  }

  /** A six-task filter that keeps stage `k` and nothing else yields that stage. */
  lemma ReadyFromKept(p: seq<Task>, k: nat, m: map<string, string>)
    requires |p| == 6 && k <= 3
    requires forall i :: 0 <= i < 6 ==> Kept(m, Archived, p[i]) == if 2 * k <= i < 2 * k + 2 then [p[i]] else []
    ensures ReadyFrom(m, Archived, p) == if k < 3 then [p[2 * k], p[2 * k + 1]] else []
  {
    ReadyOfSix(m, Archived, p);
    var e: seq<Task> := [];
    if k == 0 {
      assert [p[0]] + ([p[1]] + (e + (e + (e + e)))) == [p[0], p[1]];
    } else if k == 1 {
      assert e + (e + ([p[2]] + ([p[3]] + (e + e)))) == [p[2], p[3]];
    } else if k == 2 {
      assert e + (e + (e + (e + ([p[4]] + [p[5]])))) == [p[4], p[5]];
    } else {
      assert e + (e + (e + (e + (e + e)))) == [];
    }
  }

  /** The status map gives every task of the plan the status of its stage. */
  lemma StagedStatusMap(p: seq<Task>, k: nat)
    requires |p| == 6 && UniqueIds(p) && StagesDone(p, k)
    ensures var m := StatusMap(p, "pending");
      forall i :: 0 <= i < 6 ==> p[i].id in m && m[p[i].id] == if i < 2 * k then "completed" else "pending"
  {
    forall i | 0 <= i < 6
      ensures p[i].id in StatusMap(p, "pending")
      ensures StatusMap(p, "pending")[p[i].id] == if i < 2 * k then "completed" else "pending"
    {
      LookupOfUnique(p, i);
      StatusMapLookup(p, "pending", p[i].id);
    }
  }

  lemma KeptInStage(p: seq<Task>, k: nat, m: map<string, string>, i: nat)
    requires TwoChains(p) && StagesDone(p, k) && i < 6
    requires forall j :: 0 <= j < 6 ==> p[j].id in m && m[p[j].id] == if j < 2 * k then "completed" else "pending"
    ensures Kept(m, Archived, p[i]) == if 2 * k <= i < 2 * k + 2 then [p[i]] else []
  {
    if i >= 2 {
      DepsDoneSingle(m, p[i - 2].id, "completed");
    }
  }

  /** Completing the ids of stage `k` completes that stage and changes nothing else. */
  lemma CompleteStage(p: seq<Task>, k: nat)
    requires TwoChains(p) && UniqueIds(p) && k < 3 && StagesDone(p, k)
    ensures var q := MarkCompleted(p, [p[2 * k].id, p[2 * k + 1].id]);
      && TwoChains(q) && UniqueIds(q) && StagesDone(q, k + 1)
      && forall i :: 2 * k + 2 <= i < 6 ==> q[i] == p[i]
  {
    var q := MarkCompleted(p, [p[2 * k].id, p[2 * k + 1].id]);
    forall i | 0 <= i < 6
      ensures q[i].id == p[i].id && q[i].dependsOn == p[i].dependsOn
      ensures q[i].status == Some(if i < 2 * k + 2 then "completed" else "pending")
      ensures i >= 2 * k + 2 ==> q[i] == p[i]
    {
      CompleteStageAt(p, k, i);
    }
    assert UniqueIds(q);
  }

  lemma CompleteStageAt(p: seq<Task>, k: nat, i: nat)
    requires |p| == 6 && UniqueIds(p) && k < 3 && StagesDone(p, k) && i < 6
    ensures var q := MarkCompleted(p, [p[2 * k].id, p[2 * k + 1].id]);
      && q[i].id == p[i].id && q[i].dependsOn == p[i].dependsOn
      && q[i].status == Some(if i < 2 * k + 2 then "completed" else "pending")
      && (i >= 2 * k + 2 ==> q[i] == p[i])
  {
    var ids := [p[2 * k].id, p[2 * k + 1].id];
    MarkCompletedEffect(p, ids, i);
    assert p[i].id in ids <==> i == 2 * k || i == 2 * k + 1;
  }

  /** After `k` completions the plan keeps its shape, exactly the first `k` stages are
      completed, and the later stages are the original records. */
  lemma {:induction false} StagesAfter(p: seq<Task>, k: nat)
    requires TwoChains(p) && UniqueIds(p) && StagesDone(p, 0) && k <= 3
    ensures var q := AfterStages(p, k);
      && TwoChains(q) && UniqueIds(q) && StagesDone(q, k)
      && forall i :: 2 * k <= i < 6 ==> q[i] == p[i]
    decreases k
  {
    if k > 0 {
      StagesAfter(p, k - 1);
      var q := AfterStages(p, k - 1);
      assert q[2 * k - 2] == p[2 * k - 2] && q[2 * k - 1] == p[2 * k - 1];
      CompleteStage(q, k - 1);
    }
  }

  /** Two ready tasks of a plan with unique ids are selected whole under `max_parallel=3`. */
  lemma PairSelected(plan: seq<Task>, a: Task, b: Task)
    requires UniqueIds(plan) && Ready(plan, Archived) == [a, b]
    ensures ArchivedBatch(Ready(plan, Archived), 3) == Ok([a, b])
  {
    ReadyAllSelected(plan, Archived, Some(3));
    ArchivedBatchAgrees([a, b], 3);
  }

  /** The iterations of the orchestration test on any two-chain plan with unique ids and nothing
      completed: after `k < 3` completions the batch under `max_parallel=3` is stage `k` as it
      was in the original plan, and after all three it is empty. */
  lemma RoundBatch(p: seq<Task>, k: nat)
    requires TwoChains(p) && UniqueIds(p) && StagesDone(p, 0) && k <= 3
    ensures ArchivedBatch(Ready(AfterStages(p, k), Archived), 3) == if k < 3 then Ok([p[2 * k], p[2 * k + 1]]) else Ok([])
  {
    StagesAfter(p, k);
    var q := AfterStages(p, k);
    ReadyIsNextStage(q, k);
    if k < 3 {
      assert q[2 * k] == p[2 * k] && q[2 * k + 1] == p[2 * k + 1];
      PairSelected(q, p[2 * k], p[2 * k + 1]);
    }
  }

  /** After the three completions every task is completed. */
  lemma AllStagesCompleted(p: seq<Task>)
    requires TwoChains(p) && UniqueIds(p) && StagesDone(p, 0)
    ensures forall i :: 0 <= i < 6 ==> AfterStages(p, 3)[i].status == Some("completed")
  {
    StagesAfter(p, 3);
  }

  /** The sample plan has the two-chain shape with unique ids and nothing completed yet, and its
      stages are the setup, validator and migration ids. */
  lemma MvpPlanShape()
    ensures TwoChains(MvpPlan) && UniqueIds(MvpPlan) && StagesDone(MvpPlan, 0)
    ensures Ids(MvpPlan) == SetupIds + ValidatorIds + MigrateIds
  {
    var p := MvpPlan;
    assert p[0].id[8] != p[1].id[8];
    assert p[2].id[12] != p[3].id[12];
    assert p[4].id[10] != p[5].id[10];
  }

  /** The test's completion steps are the stage completions of the sample plan. */
  lemma MvpCompletions()
    ensures AfterStages(MvpPlan, 1) == AfterSetup
    ensures AfterStages(MvpPlan, 2) == AfterValidators
    ensures AfterStages(MvpPlan, 3) == AfterMigrations
  {
    var p := MvpPlan;
    assert SetupIds == [p[0].id, p[1].id];
    assert ValidatorIds == [p[2].id, p[3].id];
    assert MigrateIds == [p[4].id, p[5].id];
  }

  /** Iteration 1 of the orchestration test: with `max_parallel=3` the batch is both setup
      tasks. */
  lemma MvpFirstIteration()
    ensures ArchivedBatch(Ready(MvpPlan, Archived), 3) == Ok([MvpPlan[0], MvpPlan[1]])
  {
    MvpPlanShape();
    RoundBatch(MvpPlan, 0);
  }

  /** Iteration 2: once the setup tasks are marked completed, the batch is both validators. */
  lemma MvpSecondIteration()
    ensures ArchivedBatch(Ready(AfterSetup, Archived), 3) == Ok([MvpPlan[2], MvpPlan[3]])
  {
    MvpPlanShape();
    MvpCompletions();
    RoundBatch(MvpPlan, 1);
  }

  /** Iteration 3: once the validators are marked completed, the batch is both migrations. */
  lemma MvpThirdIteration()
    ensures ArchivedBatch(Ready(AfterValidators, Archived), 3) == Ok([MvpPlan[4], MvpPlan[5]])
  {
    MvpPlanShape();
    MvpCompletions();
    RoundBatch(MvpPlan, 2);
  }

  /** Iteration 4: once the migrations are marked completed, nothing is ready and every task is
      completed. */
  lemma MvpLastIteration()
    ensures ArchivedBatch(Ready(AfterMigrations, Archived), 3) == Ok([])
    ensures |AfterMigrations| == 6
    ensures forall i :: 0 <= i < |AfterMigrations| ==> AfterMigrations[i].status == Some("completed")
  {
    MvpPlanShape();
    MvpCompletions();
    RoundBatch(MvpPlan, 3);
    AllStagesCompleted(MvpPlan);
  }

  /** The ready tasks of a six-task list, written out. */
  lemma ReadyOfSix(m: map<string, string>, rule: StatusRule, ts: seq<Task>)
    requires |ts| == 6
    ensures ReadyFrom(m, rule, ts)
      == Kept(m, rule, ts[0]) + (Kept(m, rule, ts[1]) + (Kept(m, rule, ts[2]) + (Kept(m, rule, ts[3])
           + (Kept(m, rule, ts[4]) + Kept(m, rule, ts[5])))))
  {
    assert ts[0..] == ts;
    ReadyFromStep(m, rule, ts, 0);
    ReadyFromStep(m, rule, ts, 1);
    ReadyFromStep(m, rule, ts, 2);
    ReadyFromStep(m, rule, ts, 3);
    ReadyFromStep(m, rule, ts, 4);
    ReadyFromStep(m, rule, ts, 5);
    assert ts[6..] == [];
  }
}
