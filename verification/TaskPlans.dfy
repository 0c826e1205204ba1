/** Task plans as values: the records, the operations of the plan store and every run of them. */
module TaskPlans {
  import opened Options
  import opened Text
  import ToolResults
  import opened Iteration

  datatype Status = Pending | InProgress | Done | Failed | Skipped | Other(name: string)

  predicate Terminal(s: Status) {
    s.Done? || s.Failed? || s.Skipped?
  }

  datatype Record = Record(
    id: string, title: string, description: string, successCheck: string, status: Status,
    startedAt: real, completedAt: real, summary: string, evidence: seq<string>, tags: seq<string>)

  datatype Plan = Plan(
    taskId: string, digest: string, subtasks: seq<Record>, cursor: nat, revisions: nat,
    createdAt: real, updatedAt: real)

  /** One entry of a step list; entries that are not mappings are ignored. */
  datatype Step = NotAMapping | Step(title: string, description: string, successCheck: string, tags: seq<string>)

  // ---------------------------------------------------------------- records

  function CleanTags(tags: seq<string>): seq<string> {
    if tags == [] then []
    else (if Strip(tags[0]) == [] then [] else [Strip(tags[0])]) + CleanTags(tags[1..])
  }

  function TitleOf(title: string, number: nat): string {
    Clip(Strip(if title == [] then "Step " + ToolResults.Decimal(number) else title), 240)
  }

  function FromStep(s: Step, number: nat, id: string): Record
    requires s.Step?
  {
    Record(id, TitleOf(s.title, number), Strip(s.description), Strip(s.successCheck), Pending,
           0.0, 0.0, "", [], CleanTags(s.tags))
  }

  /** The new subtasks for a step list whose first entry would be number `number`. */
  function FromSteps(steps: seq<Step>, number: nat, ids: nat -> string): (r: seq<Record>)
    ensures |r| <= |steps|
  {
    if steps == [] then []
    else
      (if steps[0].Step? then [FromStep(steps[0], number, ids(number))] else [])
      + FromSteps(steps[1..], number + 1, ids)
  }

  /** What reading a stored record back makes of it. */
  function Reread(r: Record, freshId: string): Record {
    r.(id := if r.id == [] then freshId else r.id,
       title := Clip(Strip(r.title), 240),
       description := Strip(r.description),
       successCheck := Strip(r.successCheck),
       tags := CleanTags(r.tags))
  }

  // ---------------------------------------------------------------- the operations

  function Saved(p: Plan, now: real): Plan {
    p.(updatedAt := now, createdAt := if p.createdAt == 0.0 then now else p.createdAt)
  }

  function Create(taskId: string, digest: string, steps: seq<Step>, ids: nat -> string, now: real): Option<Plan> {
    var subtasks := FromSteps(steps, 1, ids);
    if subtasks == [] then None
    else
      Some(Saved(Plan(if taskId == [] then "default" else taskId, Clip(digest, 2000), subtasks, 0, 0, 0.0, 0.0), now))
  }

  predicate HasCurrent(p: Plan) {
    p.cursor < |p.subtasks|
  }

  function Start(p: Plan, now: real): Plan {
    if !HasCurrent(p) then p
    else Saved(p.(subtasks := p.subtasks[p.cursor := p.subtasks[p.cursor].(status := InProgress, startedAt := now)]), now)
  }

  function CleanEvidence(evidence: seq<string>): seq<string> {
    if evidence == [] then []
    else (if Strip(evidence[0]) == [] then [] else [Clip(Strip(evidence[0]), 400)]) + CleanEvidence(evidence[1..])
  }

  function Finish(r: Record, status: Status, summary: string, evidence: seq<string>, now: real): Record {
    var items := CleanEvidence(evidence);
    r.(status := if Terminal(status) then status else Done,
       summary := Clip(Strip(summary), 2000),
       evidence := if |items| <= 10 then items else items[..10],
       completedAt := now)
  }

  function Complete(p: Plan, status: Status, summary: string, evidence: seq<string>, now: real): Plan {
    if !HasCurrent(p) then p
    else
      var finished := Finish(p.subtasks[p.cursor], status, summary, evidence, now);
      Saved(p.(subtasks := p.subtasks[p.cursor := finished], cursor := p.cursor + 1), now)
  }

  function FailReason(reason: string): string {
    "Phase round cap reached, subtask auto-skipped. Reason: " + reason
  }

  function RevisionNote(number: nat, reason: string): string {
    Strip("\n[revision#" + ToolResults.Decimal(number) + "] " + reason)
  }

  /** `subtasks[:cursor]`. */
  function Head(p: Plan): seq<Record> {
    if p.cursor <= |p.subtasks| then p.subtasks[..p.cursor] else p.subtasks
  }

  function Revise(p: Plan, steps: seq<Step>, reason: string, ids: nat -> string, now: real): Plan {
    var note := RevisionNote(p.revisions + 1, reason);
    Saved(p.(subtasks := Head(p) + FromSteps(steps, p.cursor + 1, ids),
             revisions := p.revisions + 1,
             digest := Clip(p.digest + note, 4000)), now)
  }

  function RereadAll(rs: seq<Record>, ids: nat -> string): (r: seq<Record>)
    ensures |r| == |rs|
  {
    MapIndexed((r: Record, number: nat) => Reread(r, ids(number)), rs, 0)
  }

  /** Storing a plan and loading it again. */
  function Reload(p: Plan, ids: nat -> string): Plan {
    p.(subtasks := RereadAll(p.subtasks, ids))
  }

  // ---------------------------------------------------------------- what every run keeps

  /** The marks that creation leaves on a record. */
  predicate WellMade(r: Record) {
    && r.id != []
    && |r.title| <= 240 && (r.title != [] ==> !IsSpace(r.title[0]))
    && Stripped(r.description) && Stripped(r.successCheck)
    && CleanTags(r.tags) == r.tags
  }

  predicate AllWellMade(rs: seq<Record>) {
    forall i | 0 <= i < |rs| :: WellMade(rs[i])
  }

  /** Finished before the cursor, pending from it on, except that the current one may be in progress. */
  predicate Inv(p: Plan) {
    && p.cursor <= |p.subtasks|
    && (forall i | 0 <= i < p.cursor :: Terminal(p.subtasks[i].status))
    && (forall i | p.cursor < i < |p.subtasks| :: p.subtasks[i].status == Pending)
    && (HasCurrent(p) ==> p.subtasks[p.cursor].status == Pending || p.subtasks[p.cursor].status == InProgress)
    && AllWellMade(p.subtasks)
  }

  /** The same subtask, except that its title may have lost white space at its end. */
  predicate SameWork(a: Record, b: Record) {
    b == a.(title := b.title) && (b.title == a.title || b.title == RStrip(a.title))
  }

  ghost predicate NonEmptyIds(ids: nat -> string) {
    forall n :: ids(n) != []
  }

  lemma {:induction false} CleanTagsStable(tags: seq<string>)
    ensures CleanTags(CleanTags(tags)) == CleanTags(tags)
  {
    if tags != [] {
      CleanTagsStable(tags[1..]);
      StripShape(tags[0]);
      var t := Strip(tags[0]);
      StripShape(t);
      var rest := CleanTags(tags[1..]);
      assert CleanTags(tags) == if t == [] then rest else [t] + rest;
      if t != [] {
        assert ([t] + rest)[1..] == rest;
      }
    }
  }

  lemma FromStepWellMade(s: Step, number: nat, id: string)
    requires s.Step? && id != []
    ensures WellMade(FromStep(s, number, id))
  {
    StripShape(if s.title == [] then "Step " + ToolResults.Decimal(number) else s.title);
    StripShape(s.description);
    StripShape(s.successCheck);
    CleanTagsStable(s.tags);
  }

  lemma {:induction false} FromStepsWellMade(steps: seq<Step>, number: nat, ids: nat -> string)
    requires NonEmptyIds(ids)
    ensures var rs := FromSteps(steps, number, ids);
      AllWellMade(rs) && forall i | 0 <= i < |rs| :: rs[i].status == Pending
  {
    if steps != [] {
      FromStepsWellMade(steps[1..], number + 1, ids);
      if steps[0].Step? {
        FromStepWellMade(steps[0], number, ids(number));
      }
    }
  }

  /** Reading a well-made record back only strips the end of its title. */
  lemma RereadWellMade(r: Record, freshId: string)
    requires WellMade(r)
    ensures Reread(r, freshId) == r.(title := RStrip(r.title))
    ensures WellMade(Reread(r, freshId))
  {
    StripShape(r.description);
    StripShape(r.successCheck);
    assert LStrip(r.title) == r.title;
  }

  datatype Event =
    | StartEvent(now: real)
    | CompleteEvent(status: Status, summary: string, evidence: seq<string>, now: real)
    | FailEvent(reason: string, now: real)
    | ReviseEvent(steps: seq<Step>, reason: string, ids: nat -> string, now: real)
    | ReloadEvent(ids: nat -> string)

  ghost predicate ProperEvent(e: Event) {
    match e
    case ReviseEvent(_, _, ids, _) => NonEmptyIds(ids)
    case _ => true
  }

  function Apply(p: Plan, e: Event): Plan {
    match e
    case StartEvent(now) => Start(p, now)
    case CompleteEvent(status, summary, evidence, now) => Complete(p, status, summary, evidence, now)
    case FailEvent(reason, now) => Complete(p, Skipped, FailReason(reason), [], now)
    case ReviseEvent(steps, reason, ids, now) => Revise(p, steps, reason, ids, now)
    case ReloadEvent(ids) => Reload(p, ids)
  }

  lemma CreateInv(taskId: string, digest: string, steps: seq<Step>, ids: nat -> string, now: real)
    requires NonEmptyIds(ids) && Create(taskId, digest, steps, ids, now).Some?
    ensures Inv(Create(taskId, digest, steps, ids, now).value)
  {
    FromStepsWellMade(steps, 1, ids);
  }

  /** The cursor has not moved back, and finished work is the same. */
  predicate WorkKept(p: Plan, q: Plan) {
    && p.cursor <= |p.subtasks| && q.cursor <= |q.subtasks| && p.cursor <= q.cursor
    && forall i | 0 <= i < p.cursor :: SameWork(p.subtasks[i], q.subtasks[i])
  }

  /** Only a revision changes the revision count, or lengthens the plan, by one list of at most `cap` steps. */
  predicate Counted(p: Plan, q: Plan, revised: bool, cap: nat) {
    && q.cursor <= |q.subtasks|
    && q.revisions == p.revisions + (if revised then 1 else 0)
    && |q.subtasks| <= (if revised then p.cursor + cap else |p.subtasks|)
  }

  ghost predicate Follows(p: Plan, q: Plan, revised: bool, cap: nat) {
    Inv(q) && WorkKept(p, q) && Counted(p, q, revised, cap)
  }

  lemma RereadAllAt(rs: seq<Record>, ids: nat -> string, i: nat)
    requires i < |rs| && AllWellMade(rs)
    ensures RereadAll(rs, ids)[i] == rs[i].(title := RStrip(rs[i].title))
    ensures WellMade(RereadAll(rs, ids)[i])
  {
    RereadWellMade(rs[i], ids(i));
  }

  lemma TitlesStrippedFollows(p: Plan, q: Plan, cap: nat)
    requires Inv(p) && |q.subtasks| == |p.subtasks| && q.cursor == p.cursor && q.revisions == p.revisions
    requires forall i | 0 <= i < |p.subtasks| ::
      WellMade(q.subtasks[i]) && q.subtasks[i] == p.subtasks[i].(title := RStrip(p.subtasks[i].title))
    ensures Follows(p, q, false, cap)
  {
  }

  lemma ReloadFollows(p: Plan, ids: nat -> string, cap: nat)
    requires Inv(p)
    ensures Follows(p, Reload(p, ids), false, cap)
  {
    var q := Reload(p, ids);
    forall i | 0 <= i < |p.subtasks|
      ensures WellMade(q.subtasks[i]) && q.subtasks[i] == p.subtasks[i].(title := RStrip(p.subtasks[i].title))
    {
      RereadAllAt(p.subtasks, ids, i);
    }
    TitlesStrippedFollows(p, q, cap);
  }

  lemma ReviseFollows(p: Plan, steps: seq<Step>, reason: string, ids: nat -> string, now: real, cap: nat)
    requires Inv(p) && NonEmptyIds(ids) && |steps| <= cap
    ensures Follows(p, Revise(p, steps, reason, ids, now), true, cap)
  {
    FromStepsWellMade(steps, p.cursor + 1, ids);
    TailReplaced(p, Revise(p, steps, reason, ids, now), FromSteps(steps, p.cursor + 1, ids), cap);
  }

  lemma TailReplaced(p: Plan, q: Plan, tail: seq<Record>, cap: nat)
    requires Inv(p) && |tail| <= cap
    requires AllWellMade(tail) && forall i | 0 <= i < |tail| :: tail[i].status == Pending
    requires q.subtasks == p.subtasks[..p.cursor] + tail
    requires q.cursor == p.cursor && q.revisions == p.revisions + 1
    ensures Follows(p, q, true, cap)
  {
  }

  lemma CompleteFollows(p: Plan, status: Status, summary: string, evidence: seq<string>, now: real, cap: nat)
    requires Inv(p)
    ensures Follows(p, Complete(p, status, summary, evidence, now), false, cap)
  {
  }

  lemma ApplyFollows(p: Plan, e: Event, cap: nat)
    requires Inv(p) && ProperEvent(e) && (e.ReviseEvent? ==> |e.steps| <= cap)
    ensures Follows(p, Apply(p, e), e.ReviseEvent?, cap)
  {
    match e
    case StartEvent(_) =>
    case CompleteEvent(status, summary, evidence, now) => CompleteFollows(p, status, summary, evidence, now, cap);
    case FailEvent(reason, now) => CompleteFollows(p, Skipped, FailReason(reason), [], now, cap);
    case ReviseEvent(steps, reason, ids, now) => ReviseFollows(p, steps, reason, ids, now, cap);
    case ReloadEvent(ids) => ReloadFollows(p, ids, cap);
  }

  ghost predicate StepAt(plans: seq<Plan>, events: seq<Event>, i: nat)
    requires |plans| == |events| + 1 && i < |events|
  {
    ProperEvent(events[i]) && plans[i + 1] == Apply(plans[i], events[i])
  }

  /** A run: the plans before and after each of a sequence of operations. */
  ghost predicate IsRun(plans: seq<Plan>, events: seq<Event>) {
    && |plans| == |events| + 1
    && Inv(plans[0])
    && forall i | 0 <= i < |events| :: StepAt(plans, events, i)
  }

  /** At most `cap` steps in every list that the run supplies. */
  predicate ListsAtMost(events: seq<Event>, cap: nat) {
    forall i | 0 <= i < |events| && events[i].ReviseEvent? :: |events[i].steps| <= cap
  }

  /** The number of revisions among the first `n` operations. */
  function Revisions(events: seq<Event>, n: nat): nat
    requires n <= |events|
  {
    if n == 0 then 0 else Revisions(events, n - 1) + (if events[n - 1].ReviseEvent? then 1 else 0)
  }

  lemma InvStep(p: Plan, e: Event, q: Plan)
    requires Inv(p) && ProperEvent(e) && q == Apply(p, e)
    ensures Inv(q)
  {
    ApplyFollows(p, e, if e.ReviseEvent? then |e.steps| else 0);
  }

  lemma RunStepAt(plans: seq<Plan>, events: seq<Event>, i: nat)
    requires IsRun(plans, events) && i < |events|
    ensures ProperEvent(events[i]) && plans[i + 1] == Apply(plans[i], events[i])
  {
    assert StepAt(plans, events, i);
  }

  lemma InvAt(plans: seq<Plan>, events: seq<Event>, i: nat)
    requires IsRun(plans, events) && i < |events| && Inv(plans[i])
    ensures Inv(plans[i + 1])
  {
    RunStepAt(plans, events, i);
    InvStep(plans[i], events[i], plans[i + 1]);
  }

  lemma {:induction false} RunInv(plans: seq<Plan>, events: seq<Event>, i: nat)
    requires IsRun(plans, events) && i <= |events|
    ensures Inv(plans[i])
  {
    if i > 0 {
      RunInv(plans, events, i - 1);
      InvAt(plans, events, i - 1);
    }
  }

  lemma RunFollows(plans: seq<Plan>, events: seq<Event>, i: nat, cap: nat)
    requires IsRun(plans, events) && i < |events|
    requires events[i].ReviseEvent? ==> |events[i].steps| <= cap
    ensures Follows(plans[i], plans[i + 1], events[i].ReviseEvent?, cap)
  {
    RunInv(plans, events, i);
    RunStepAt(plans, events, i);
    ApplyFollows(plans[i], events[i], cap);
  }

  lemma SameWorkTrans(a: Record, b: Record, c: Record)
    requires SameWork(a, b) && SameWork(b, c)
    ensures SameWork(a, c)
  {
    assert RStrip(RStrip(a.title)) == RStrip(a.title);
  }

  lemma WorkKeptTrans(p: Plan, q: Plan, r: Plan)
    requires WorkKept(p, q) && WorkKept(q, r)
    ensures WorkKept(p, r)
  {
    forall i | 0 <= i < p.cursor
      ensures SameWork(p.subtasks[i], r.subtasks[i])
    {
      SameWorkTrans(p.subtasks[i], q.subtasks[i], r.subtasks[i]);
    }
  }

  lemma {:induction false} ChainKept(plans: seq<Plan>, i: nat, j: nat)
    requires i <= j < |plans| && plans[i].cursor <= |plans[i].subtasks|
    requires forall k | i <= k < j :: WorkKept(plans[k], plans[k + 1])
    ensures WorkKept(plans[i], plans[j])
    decreases j - i
  {
    if i < j {
      ChainKept(plans, i, j - 1);
      assert WorkKept(plans[j - 1], plans[j - 1 + 1]);
      WorkKeptTrans(plans[i], plans[j - 1], plans[j]);
    }
  }

  lemma RunStep(plans: seq<Plan>, events: seq<Event>, k: nat)
    requires IsRun(plans, events) && k < |events|
    ensures WorkKept(plans[k], plans[k + 1])
  {
    RunFollows(plans, events, k, if events[k].ReviseEvent? then |events[k].steps| else 0);
  }

  /**
   * Every run, reloads included, keeps the invariant at each moment; and between any two moments the
   * cursor has not moved back and no finished subtask has changed but for white space at the end of
   * its title.
   */
  lemma EveryRunKeeps(plans: seq<Plan>, events: seq<Event>, i: nat, j: nat)
    requires IsRun(plans, events) && i <= j <= |events|
    ensures Inv(plans[i]) && Inv(plans[j]) && WorkKept(plans[i], plans[j])
  {
    RunInv(plans, events, i);
    RunInv(plans, events, j);
    forall k | i <= k < j
      ensures WorkKept(plans[k], plans[k + 1])
    {
      RunStep(plans, events, k);
    }
    ChainKept(plans, i, j);
  }

  lemma OneMoreList(cap: nat, revisions: nat)
    ensures cap * (revisions + 1) + cap == cap * (revisions + 2)
  {
  }

  lemma {:induction false} ChainBounded(plans: seq<Plan>, events: seq<Event>, n: nat, cap: nat)
    requires n <= |events| && n < |plans|
    requires forall k | 0 <= k < n :: Counted(plans[k], plans[k + 1], events[k].ReviseEvent?, cap)
    requires plans[0].cursor <= |plans[0].subtasks| <= cap && plans[0].revisions == 0
    ensures plans[n].revisions == Revisions(events, n)
    ensures plans[n].cursor <= |plans[n].subtasks| <= cap * (plans[n].revisions + 1)
  {
    if n > 0 {
      ChainBounded(plans, events, n - 1, cap);
      assert Counted(plans[n - 1], plans[n - 1 + 1], events[n - 1].ReviseEvent?, cap);
      OneMoreList(cap, plans[n - 1].revisions);
    }
  }

  lemma RunCounted(plans: seq<Plan>, events: seq<Event>, k: nat, cap: nat)
    requires IsRun(plans, events) && ListsAtMost(events, cap) && k < |events|
    ensures Counted(plans[k], plans[k + 1], events[k].ReviseEvent?, cap)
  {
    RunFollows(plans, events, k, cap);
  }

  /** With lists of at most `cap` steps the plan never outgrows `cap` steps for each list supplied. */
  lemma EveryRunBounded(taskId: string, digest: string, steps: seq<Step>, ids: nat -> string, now: real,
                        plans: seq<Plan>, events: seq<Event>, n: nat, cap: nat)
    requires plans != [] && Create(taskId, digest, steps, ids, now) == Some(plans[0]) && |steps| <= cap
    requires IsRun(plans, events) && ListsAtMost(events, cap) && n <= |events|
    ensures plans[n].revisions == Revisions(events, n)
    ensures |plans[n].subtasks| <= cap * (Revisions(events, n) + 1)
  {
    CreateCounts(taskId, digest, steps, ids, now);
    forall k | 0 <= k < n
      ensures Counted(plans[k], plans[k + 1], events[k].ReviseEvent?, cap)
    {
      RunCounted(plans, events, k, cap);
    }
    ChainBounded(plans, events, n, cap);
  }

  lemma CreateCounts(taskId: string, digest: string, steps: seq<Step>, ids: nat -> string, now: real)
    requires Create(taskId, digest, steps, ids, now).Some?
    ensures var p := Create(taskId, digest, steps, ids, now).value;
      p.cursor == 0 && p.revisions == 0 && |p.subtasks| <= |steps|
  {
  }

  // ---------------------------------------------------------------- storing and loading

  predicate TitleStripped(title: string) {
    title == [] || !IsSpace(title[|title| - 1])
  }

  predicate TitlesStripped(p: Plan) {
    forall i | 0 <= i < |p.subtasks| :: TitleStripped(p.subtasks[i].title)
  }

  /** A plan reads back as it was stored exactly when no title ends in white space. */
  lemma ReloadIdentityIff(p: Plan, ids: nat -> string)
    requires Inv(p)
    ensures Reload(p, ids) == p <==> TitlesStripped(p)
  {
    var rs := RereadAll(p.subtasks, ids);
    forall i | 0 <= i < |p.subtasks|
      ensures rs[i] == p.subtasks[i] <==> TitleStripped(p.subtasks[i].title)
    {
      RereadAllAt(p.subtasks, ids, i);
    }
    if TitlesStripped(p) {
      assert rs == p.subtasks;
    } else {
      var i :| 0 <= i < |p.subtasks| && !TitleStripped(p.subtasks[i].title);
      assert rs[i] != p.subtasks[i];
    }
  }

  lemma RStripStripped(title: string)
    ensures TitleStripped(RStrip(title))
  {
  }

  /** One reload is enough: after it every title is stripped. */
  lemma ReloadedTitlesStripped(p: Plan, ids: nat -> string)
    requires Inv(p)
    ensures TitlesStripped(Reload(p, ids))
  {
    forall i | 0 <= i < |p.subtasks|
      ensures TitleStripped(RereadAll(p.subtasks, ids)[i].title)
    {
      RereadAllAt(p.subtasks, ids, i);
      RStripStripped(p.subtasks[i].title);
    }
  }

  /** Cutting a long title right after a space makes such a plan. */
  lemma CutTitleEndsInSpace(title: string, number: nat)
    requires Stripped(title) && |title| > 240 && IsSpace(title[239])
    ensures TitleOf(title, number) == title[..240]
    ensures !TitleStripped(TitleOf(title, number))
  {
    StripShape(title);
  }
}
