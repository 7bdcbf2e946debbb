/** `update_migration_plan` of the archived orchestrator: the plan's task records are updated in
    place, every task named in `completed_tasks` getting the status "completed". */
module PlanUpdates {
  import opened Wrappers
  import opened Tasks

  const Completed := "completed"

  /** The task list after the update: the named tasks completed, the others as they were. */
  function MarkCompleted(ts: seq<Task>, completed: seq<string>): (r: seq<Task>)
    ensures |r| == |ts|
  {
    seq(|ts|, i requires 0 <= i < |ts| => if ts[i].id in completed then ts[i].(status := Some(Completed)) else ts[i])
  }

  /** Exactly the named tasks change, and only in their status, which becomes "completed". */
  lemma MarkCompletedEffect(ts: seq<Task>, completed: seq<string>, i: nat)
    requires i < |ts|
    ensures var t := MarkCompleted(ts, completed)[i];
      && t.(status := ts[i].status) == ts[i]
      && (ts[i].id in completed ==> t.status == Some(Completed))
      && (ts[i].id !in completed ==> t == ts[i])
  {
  }

  /** The update keeps the ids, and with them the dependency graph. */
  lemma MarkCompletedKeepsIds(ts: seq<Task>, completed: seq<string>)
    ensures Ids(MarkCompleted(ts, completed)) == Ids(ts)
    ensures forall i :: 0 <= i < |ts| ==> MarkCompleted(ts, completed)[i].dependsOn == ts[i].dependsOn
  {
  }

  /** Marking the same tasks twice changes nothing more. */
  lemma MarkCompletedIdempotent(ts: seq<Task>, completed: seq<string>)
    ensures MarkCompleted(MarkCompleted(ts, completed), completed) == MarkCompleted(ts, completed)
  {
  }

  /** A migration plan whose task records are updated in place. */
  class MigrationPlan {
    var tasks: seq<Task>

    constructor(tasks: seq<Task>)
      ensures this.tasks == tasks
    {
      this.tasks := tasks;
    }

    /** `update_migration_plan(plan, completed_tasks, plan_path)`: marks the named tasks
        completed and returns the same plan. */
    method UpdateMigrationPlan(completed: seq<string>) returns (plan: MigrationPlan)
      modifies this
      ensures plan == this
      ensures tasks == MarkCompleted(old(tasks), completed)
    {
      ghost var before := tasks;
      for i := 0 to |tasks|
        invariant |tasks| == |before|
        invariant forall k :: 0 <= k < i ==> tasks[k] == MarkCompleted(before, completed)[k]
        invariant forall k :: i <= k < |tasks| ==> tasks[k] == before[k]
      {
        if tasks[i].id in completed {
          tasks := tasks[i := tasks[i].(status := Some(Completed))];
        }
      }
      plan := this;
    }
  }
}
