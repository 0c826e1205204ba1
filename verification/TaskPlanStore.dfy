/** The plan store: plans and subtasks are objects that its methods update in place and save. */
module TaskPlanStore {
  import opened Options
  import opened Text
  import opened TaskPlans

  /** A subtask object; its fields are held as one record, so that an assignment may change several. */
  class Subtask {
    var fields: Record

    constructor (fields: Record)
      ensures this.fields == fields
    {
      this.fields := fields;
    }
  }

  function Values(subtasks: seq<Subtask>): (r: seq<Record>)
    reads subtasks
    ensures |r| == |subtasks|
    ensures forall i | 0 <= i < |r| :: r[i] == subtasks[i].fields
  {
    if subtasks == [] then [] else [subtasks[0].fields] + Values(subtasks[1..])
  }

  lemma ValuesAppend(a: seq<Subtask>, b: seq<Subtask>)
    ensures Values(a + b) == Values(a) + Values(b)
  {
  }

  lemma ValuesTake(a: seq<Subtask>, k: nat)
    requires k <= |a|
    ensures Values(a[..k]) == Values(a)[..k]
  {
  }

  predicate Distinct(subtasks: seq<Subtask>) {
    forall i, j | 0 <= i < j < |subtasks| :: subtasks[i] != subtasks[j]
  }

  lemma DistinctAppend(a: seq<Subtask>, b: seq<Subtask>)
    requires Distinct(a) && Distinct(b)
    requires forall s | s in b :: s !in a
    ensures Distinct(a + b)
  {
    forall i, j | 0 <= i < j < |a + b|
      ensures (a + b)[i] != (a + b)[j]
    {
      if i < |a| <= j {
        assert a[i] in a && b[j - |a|] in b;
      }
    }
  }

  lemma HeadAndTail(subtasks: seq<Subtask>, k: nat, tail: seq<Subtask>)
    requires k <= |subtasks| && Distinct(subtasks)
    requires Distinct(tail) && forall s | s in tail :: s !in subtasks
    ensures Distinct(subtasks[..k] + tail)
    ensures Values(subtasks[..k] + tail) == Values(subtasks)[..k] + Values(tail)
  {
    var head := subtasks[..k];
    assert forall s | s in head :: s in subtasks;
    DistinctAppend(head, tail);
    ValuesTake(subtasks, k);
    ValuesAppend(head, tail);
  }

  class TaskPlan {
    const taskId: string
    var digest: string
    var subtasks: seq<Subtask>
    var cursor: nat
    var revisions: nat
    var createdAt: real
    var updatedAt: real

    constructor (taskId: string, digest: string, subtasks: seq<Subtask>)
      requires Distinct(subtasks)
      ensures Valid() && this.subtasks == subtasks
      ensures State() == Plan(taskId, digest, Values(subtasks), 0, 0, 0.0, 0.0)
    {
      this.taskId, this.digest, this.subtasks := taskId, digest, subtasks;
      cursor, revisions, createdAt, updatedAt := 0, 0, 0.0, 0.0;
    }

    predicate Valid()
      reads this
    {
      Distinct(subtasks) && cursor <= |subtasks|
    }

    function State(): Plan
      reads this, subtasks
    {
      Plan(taskId, digest, Values(subtasks), cursor, revisions, createdAt, updatedAt)
    }

    /** Keeps the subtasks before the cursor, as the same objects, puts `tail` after them and notes the revision. */
    method TakeRevision(tail: seq<Subtask>, note: string)
      requires Valid()
      requires Distinct(tail) && forall s | s in tail :: s !in subtasks
      modifies this`subtasks, this`revisions, this`digest
      ensures Valid() && subtasks == old(subtasks)[..cursor] + tail
      ensures State() == old(State()).(
        subtasks := old(State()).subtasks[..cursor] + Values(tail),
        revisions := old(revisions) + 1,
        digest := Clip(old(digest) + note, 4000))
    {
      HeadAndTail(subtasks, cursor, tail);
      subtasks := subtasks[..cursor] + tail;
      revisions := revisions + 1;
      digest := Clip(digest + note, 4000);
    }

    /** The current subtask's fields become `r`. */
    method UpdateCurrent(r: Record)
      requires Valid() && cursor < |subtasks|
      modifies subtasks[cursor]
      ensures Valid() && State() == old(State()).(subtasks := old(State()).subtasks[cursor := r])
    {
      subtasks[cursor].fields := r;
      assert Values(subtasks) == old(Values(subtasks))[cursor := r];
    }

    /** The subtask that the plan has its cursor at; none exactly when the plan is complete. */
    function Current(): (cur: Subtask?)
      reads this, subtasks
      ensures cur == null <==> !HasCurrent(State())
      ensures cur != null ==> cur in subtasks && cur.fields == State().subtasks[State().cursor]
      ensures cur != null && Valid() ==> forall i | 0 <= i < |subtasks| :: subtasks[i] == cur <==> i == cursor
    {
      if cursor < |subtasks| then subtasks[cursor] else null
    }
  }

  method MakeSubtasks(records: seq<Record>) returns (subtasks: seq<Subtask>)
    ensures Values(subtasks) == records && Distinct(subtasks)
    ensures forall s | s in subtasks :: fresh(s)
  {
    subtasks := [];
    for i := 0 to |records|
      invariant |subtasks| == i && Distinct(subtasks)
      invariant forall k | 0 <= k < i :: fresh(subtasks[k]) && subtasks[k].fields == records[k]
    {
      var s := new Subtask(records[i]);
      subtasks := subtasks + [s];
    }
  }

  class Store {
    /** What is on disk, by task. */
    var saved: map<string, Plan>

    constructor ()
      ensures saved == map[]
    {
      saved := map[];
    }

    method Save(plan: TaskPlan, now: real)
      requires plan.Valid()
      modifies this, plan`updatedAt, plan`createdAt
      ensures plan.Valid() && plan.State() == Saved(old(plan.State()), now)
      ensures saved == old(saved)[plan.taskId := plan.State()]
    {
      plan.updatedAt := now;
      if plan.createdAt == 0.0 {
        plan.createdAt := now;
      }
      saved := saved[plan.taskId := plan.State()];
    }

    method CreateFromSteps(taskId: string, digest: string, steps: seq<Step>, ids: nat -> string, now: real)
      returns (plan: TaskPlan?)
      modifies this
      ensures match Create(taskId, digest, steps, ids, now)
        case None => plan == null && saved == old(saved)
        case Some(p) =>
          && plan != null && fresh(plan) && plan.Valid() && plan.State() == p
          && (forall s | s in plan.subtasks :: fresh(s))
          && saved == old(saved)[plan.taskId := p]
    {
      var records := FromSteps(steps, 1, ids);
      if records == [] {
        return null;
      }
      var subtasks := MakeSubtasks(records);
      plan := new TaskPlan(if taskId == [] then "default" else taskId, Clip(digest, 2000), subtasks);
      Save(plan, now);
    }

    method StartCurrent(plan: TaskPlan, now: real) returns (cur: Subtask?)
      requires plan.Valid()
      modifies this, plan, plan.subtasks
      ensures plan.Valid() && plan.State() == Start(old(plan.State()), now)
      ensures plan.subtasks == old(plan.subtasks) && cur == old(plan.Current())
      ensures saved == if cur == null then old(saved) else old(saved)[plan.taskId := plan.State()]
    {
      cur := plan.Current();
      if cur == null {
        return;
      }
      plan.UpdateCurrent(cur.fields.(status := InProgress, startedAt := now));
      Save(plan, now);
    }

    method CompleteCurrent(plan: TaskPlan, status: Status, summary: string, evidence: seq<string>, now: real)
      returns (cur: Subtask?)
      requires plan.Valid()
      modifies this, plan, plan.subtasks
      ensures plan.Valid() && plan.State() == Complete(old(plan.State()), status, summary, evidence, now)
      ensures plan.subtasks == old(plan.subtasks) && cur == old(plan.Current())
      ensures saved == if cur == null then old(saved) else old(saved)[plan.taskId := plan.State()]
    {
      cur := plan.Current();
      if cur == null {
        return;
      }
      var finished := Finish(cur.fields, status, summary, evidence, now);
      ghost var before := plan.State();
      plan.UpdateCurrent(finished);
      plan.cursor := plan.cursor + 1;
      assert plan.State() == before.(subtasks := before.subtasks[before.cursor := finished], cursor := before.cursor + 1);
      Save(plan, now);
    }

    method FailCurrent(plan: TaskPlan, reason: string, now: real) returns (cur: Subtask?)
      requires plan.Valid()
      modifies this, plan, plan.subtasks
      ensures plan.Valid() && plan.State() == Apply(old(plan.State()), FailEvent(reason, now))
      ensures plan.subtasks == old(plan.subtasks) && cur == old(plan.Current())
      ensures saved == if cur == null then old(saved) else old(saved)[plan.taskId := plan.State()]
    {
      cur := CompleteCurrent(plan, Skipped, FailReason(reason), [], now);
    }

    /** Replaces everything from the cursor on; the finished subtasks stay the same objects. */
    method ApplyRevision(plan: TaskPlan, steps: seq<Step>, reason: string, ids: nat -> string, now: real)
      requires plan.Valid()
      modifies this, plan
      ensures plan.Valid() && plan.State() == Revise(old(plan.State()), steps, reason, ids, now)
      ensures old(plan.subtasks)[..plan.cursor] <= plan.subtasks
      ensures saved == old(saved)[plan.taskId := plan.State()]
    {
      ghost var before := plan.State();
      var records, note := FromSteps(steps, plan.cursor + 1, ids), RevisionNote(plan.revisions + 1, reason);
      var tail := MakeSubtasks(records);
      assert plan.State() == before;
      plan.TakeRevision(tail, note);
      assert plan.State() == before.(
        subtasks := Head(before) + records, revisions := before.revisions + 1, digest := Clip(before.digest + note, 4000));
      Save(plan, now);
    }
  }
}
