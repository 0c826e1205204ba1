/** The verify gate: counting edits since the last verification and reminding, but not too often. */
module VerifyGates {
  import opened Text

  const WRITE_TOOLS := {
    "update_workspace_seed", "apply_workspace_patch", "update_workspace_from_instance",
    "commit_workspace_changes", "repo_write_commit", "repo_commit_push", "sandbox_self_edit"}
  const VERIFY_TOOLS := {"run_workspace_verify"}
  const REMIND_INTERVAL := 5

  datatype Tool = WriteTool | VerifyTool | OtherTool

  /** What a tool name means to the gate. */
  function ToolOf(name: string): Tool {
    if Strip(name) in VERIFY_TOOLS then VerifyTool
    else if Strip(name) in WRITE_TOOLS then WriteTool
    else OtherTool
  }

  // ---------------------------------------------------------------- letter case

  function LowerChar(c: char): char {
    if 'A' <= c <= 'Z' then 'a' + (c - 'A') else c
  }

  /** The name with its letters A to Z in lower case. */
  function Lower(s: string): (r: string)
    ensures |r| == |s| && forall i | 0 <= i < |s| :: r[i] == LowerChar(s[i])
  {
    seq(|s|, i requires 0 <= i < |s| => LowerChar(s[i]))
  }

  lemma LowerSpace(c: char)
    ensures IsSpace(LowerChar(c)) <==> IsSpace(c)
  {
  }

  lemma {:induction false} LStripLower(s: string)
    ensures LStrip(Lower(s)) == Lower(LStrip(s))
  {
    if s != [] {
      LowerSpace(s[0]);
      assert Lower(s)[1..] == Lower(s[1..]);
      LStripLower(s[1..]);
    }
  }

  lemma LowerInit(s: string)
    requires s != []
    ensures Lower(s)[..|s| - 1] == Lower(s[..|s| - 1])
    ensures IsSpace(Lower(s)[|s| - 1]) <==> IsSpace(s[|s| - 1])
  {
    LowerSpace(s[|s| - 1]);
  }

  lemma RStripStep(s: string)
    requires s != []
    ensures RStrip(s) == if IsSpace(s[|s| - 1]) then RStrip(s[..|s| - 1]) else s
  {
  }

  lemma {:induction false} RStripLower(s: string)
    ensures RStrip(Lower(s)) == Lower(RStrip(s))
    decreases |s|
  {
    if s != [] {
      var n := |s| - 1;
      LowerInit(s);
      RStripLower(s[..n]);
      RStripStep(s);
      RStripStep(Lower(s));
    }
  }

  lemma StripLower(s: string)
    ensures Strip(Lower(s)) == Lower(Strip(s))
  {
    LStripLower(s);
    RStripLower(LStrip(s));
  }

  /** In lower case. */
  predicate IsLower(s: string) {
    forall i | 0 <= i < |s| :: !('A' <= s[i] <= 'Z')
  }

  lemma SeedAndPatchLower()
    ensures IsLower("update_workspace_seed") && IsLower("apply_workspace_patch")
  {
  }

  lemma InstanceAndChangesLower()
    ensures IsLower("update_workspace_from_instance") && IsLower("commit_workspace_changes")
  {
  }

  lemma RepositoryToolsLower()
    ensures IsLower("repo_write_commit") && IsLower("repo_commit_push")
  {
  }

  lemma EditAndVerifyLower()
    ensures IsLower("sandbox_self_edit") && IsLower("run_workspace_verify")
  {
  }

  lemma ToolNamesLower()
    ensures forall tool | tool in VERIFY_TOOLS + WRITE_TOOLS :: IsLower(tool)
  {
    SeedAndPatchLower();
    InstanceAndChangesLower();
    RepositoryToolsLower();
    EditAndVerifyLower();
  }

  /**
   * The comparison is case-sensitive, although the gate's documentation says it is not: the letter
   * case of a name makes no difference if and only if the name is no tool's in lower case either or
   * is already in lower case.
   */
  lemma CaseMatters(name: string)
    ensures ToolOf(name) == ToolOf(Lower(name)) <==>
      Lower(Strip(name)) !in VERIFY_TOOLS + WRITE_TOOLS || IsLower(Strip(name))
  {
    var core := Strip(name);
    StripLower(name);
    ToolNamesLower();
    if IsLower(core) {
      assert Lower(core) == core;
    } else {
      assert core !in VERIFY_TOOLS + WRITE_TOOLS;
    }
  }

  /** A verification whose name is not all in lower case is hidden from the gate. */
  lemma CapitalHides(name: string)
    requires Lower(Strip(name)) in VERIFY_TOOLS && !IsLower(Strip(name))
    ensures ToolOf(name) == OtherTool && ToolOf(Lower(name)) == VerifyTool
  {
    StripLower(name);
    ToolNamesLower();
  }

  lemma CapitalName()
    ensures Stripped("Run_workspace_verify") && !IsLower("Run_workspace_verify")
    ensures Lower("Run_workspace_verify") == "run_workspace_verify"
  {
    assert "Run_workspace_verify"[0] == 'R';
  }

  /** For instance this one. */
  lemma CapitalIgnored()
    ensures ToolOf("Run_workspace_verify") == OtherTool
    ensures ToolOf(Lower("Run_workspace_verify")) == VerifyTool
  {
    CapitalName();
    StripShape("Run_workspace_verify");
    CapitalHides("Run_workspace_verify");
  }

  // ---------------------------------------------------------------- specification

  datatype Gate = Gate(threshold: int, edits: map<string, nat>, lastRemind: int, reminded: set<string>)

  function Count(g: Gate, ws: string): nat {
    if ws in g.edits then g.edits[ws] else 0
  }

  function Observed(g: Gate, tool: Tool, ws: string): Gate {
    match tool
    case VerifyTool => g.(edits := g.edits[ws := 0], reminded := g.reminded - {ws})
    case WriteTool => g.(edits := g.edits[ws := Count(g, ws) + 1])
    case OtherTool => g
  }

  function Hot(g: Gate): set<string> {
    if g.threshold <= 0 then {} else set ws | ws in g.edits && g.edits[ws] >= g.threshold
  }

  predicate ShouldRemind(g: Gate, round: int) {
    Hot(g) != {} && (g.lastRemind == 0 || round - g.lastRemind >= REMIND_INTERVAL)
  }

  function Reminded(g: Gate, round: int): Gate {
    g.(lastRemind := round, reminded := g.reminded + Hot(g))
  }

  // ---------------------------------------------------------------- the gate object

  class VerifyGate {
    var threshold: int
    var edits: map<string, nat>
    var lastRemindRound: int
    var remindedWorkspaces: set<string>

    constructor (threshold: int)
      ensures State() == Gate(threshold, map[], 0, {})
    {
      this.threshold, edits, lastRemindRound, remindedWorkspaces := threshold, map[], 0, {};
    }

    function State(): Gate
      reads this
    {
      Gate(threshold, edits, lastRemindRound, remindedWorkspaces)
    }

    method Observe(toolName: string, workspaceId: string)
      modifies this
      ensures State() == Observed(old(State()), ToolOf(toolName), Strip(workspaceId))
    {
      ObserveTool(ToolOf(toolName), Strip(workspaceId));
    }

    method ObserveTool(tool: Tool, ws: string)
      modifies this
      ensures State() == Observed(old(State()), tool, ws)
    {
      match tool
      case VerifyTool =>
        edits := edits[ws := 0];
        remindedWorkspaces := remindedWorkspaces - {ws};
      case WriteTool =>
        edits := edits[ws := (if ws in edits then edits[ws] else 0) + 1];
      case OtherTool =>
    }

    function HotWorkspaces(): (hot: set<string>)
      reads this
      ensures hot == Hot(State())
      ensures forall ws :: ws in hot <==> 0 < threshold <= Count(State(), ws)
    {
      if threshold <= 0 then {} else set ws | ws in edits && edits[ws] >= threshold
    }

    function ShouldRemindNow(round: int): (r: bool)
      reads this
      ensures r == ShouldRemind(State(), round)
    {
      threshold > 0 && HotWorkspaces() != {}
      && (lastRemindRound == 0 || round - lastRemindRound >= REMIND_INTERVAL)
    }

    /** Splits the hot workspaces, with their counts, by whether they were reminded before, and marks them all. */
    method BuildReminder(round: int) returns (firstTime: map<string, nat>, repeated: map<string, nat>)
      modifies this
      ensures State() == Reminded(old(State()), round)
      ensures repeated.Keys == old(HotWorkspaces() * remindedWorkspaces)
      ensures firstTime.Keys == old(HotWorkspaces() - remindedWorkspaces)
      ensures forall ws | ws in repeated :: repeated[ws] == Count(State(), ws)
      ensures forall ws | ws in firstTime :: firstTime[ws] == Count(State(), ws)
    {
      var hot := HotWorkspaces();
      ghost var before := remindedWorkspaces;
      lastRemindRound := round;
      firstTime, repeated := map[], map[];
      var todo := hot;
      while todo != {}
        invariant todo <= hot
        invariant repeated.Keys == (hot - todo) * before && firstTime.Keys == (hot - todo) - before
        invariant remindedWorkspaces == before + firstTime.Keys
        invariant threshold == old(threshold) && edits == old(edits) && lastRemindRound == round
        invariant forall ws | ws in repeated :: repeated[ws] == Count(State(), ws)
        invariant forall ws | ws in firstTime :: firstTime[ws] == Count(State(), ws)
        decreases todo
      {
        var ws :| ws in todo;
        todo := todo - {ws};
        if ws in remindedWorkspaces {
          repeated := repeated[ws := edits[ws]];
        } else {
          firstTime := firstTime[ws := edits[ws]];
          remindedWorkspaces := remindedWorkspaces + {ws};
        }
      }
    }
  }

  // ---------------------------------------------------------------- traces

  /** What the loop does: tool calls, and at the end of each round a reminder if one is due. */
  datatype Event = Call(tool: Tool, ws: string) | Round(idx: int)

  type Trace = seq<Event>

  function Step(g: Gate, e: Event): Gate {
    match e
    case Call(tool, ws) => Observed(g, tool, ws)
    case Round(idx) => if ShouldRemind(g, idx) then Reminded(g, idx) else g
  }

  function GateAfter(threshold: int, t: Trace): Gate {
    if t == [] then Gate(threshold, map[], 0, {})
    else Step(GateAfter(threshold, t[..|t| - 1]), t[|t| - 1])
  }

  /** The write calls on a workspace since its last verification. */
  function WritesSince(t: Trace, ws: string): nat {
    if t == [] then 0
    else
      var before, e := WritesSince(t[..|t| - 1], ws), t[|t| - 1];
      if e == Call(VerifyTool, ws) then 0
      else if e == Call(WriteTool, ws) then before + 1
      else before
  }

  ghost predicate IsHot(threshold: int, t: Trace, ws: string) {
    0 < threshold <= WritesSince(t, ws)
  }

  /** A reminder is due in round `idx` after `t`. */
  ghost predicate Due(threshold: int, t: Trace, idx: int) {
    && (exists ws :: IsHot(threshold, t, ws))
    && (LastReminder(threshold, t) == 0 || idx - LastReminder(threshold, t) >= REMIND_INTERVAL)
  }

  /** The round of the last reminder, or 0. */
  ghost function LastReminder(threshold: int, t: Trace): int
    decreases |t|
  {
    if t == [] then 0
    else
      var init, e := t[..|t| - 1], t[|t| - 1];
      if e.Round?
        && (exists ws :: IsHot(threshold, init, ws))
        && (LastReminder(threshold, init) == 0 || e.idx - LastReminder(threshold, init) >= REMIND_INTERVAL)
      then e.idx
      else LastReminder(threshold, init)
  }

  /** A reminder has named the workspace since its last verification. */
  ghost predicate RemindedSince(threshold: int, t: Trace, ws: string) {
    t != [] &&
    (var init, e := t[..|t| - 1], t[|t| - 1];
     || (e.Round? && Due(threshold, init, e.idx) && IsHot(threshold, init, ws))
     || (e != Call(VerifyTool, ws) && RemindedSince(threshold, init, ws)))
  }

  ghost predicate Matches(g: Gate, threshold: int, t: Trace) {
    && g.threshold == threshold
    && (forall ws :: Count(g, ws) == WritesSince(t, ws))
    && g.lastRemind == LastReminder(threshold, t)
    && (forall ws :: ws in g.reminded <==> RemindedSince(threshold, t, ws))
  }

  lemma HotIffIsHot(g: Gate, threshold: int, t: Trace)
    requires Matches(g, threshold, t)
    ensures forall ws :: ws in Hot(g) <==> IsHot(threshold, t, ws)
    ensures Hot(g) != {} <==> exists ws :: IsHot(threshold, t, ws)
  {
    forall ws
      ensures ws in Hot(g) <==> IsHot(threshold, t, ws)
    {
      assert Count(g, ws) == WritesSince(t, ws);
    }
    if Hot(g) != {} {
      var ws :| ws in Hot(g);
      assert IsHot(threshold, t, ws);
    }
  }

  /**
   * Along any trace a workspace's counter is its write calls since its last verification, reminders
   * come exactly when due, and "repeat" means reminded since the workspace's last verification.
   */
  lemma {:induction false} GateTracks(threshold: int, t: Trace)
    ensures Matches(GateAfter(threshold, t), threshold, t)
    ensures forall idx :: ShouldRemind(GateAfter(threshold, t), idx) <==> Due(threshold, t, idx)
    decreases |t|
  {
    if t == [] {
    } else {
      var init, e := t[..|t| - 1], t[|t| - 1];
      GateTracks(threshold, init);
      HotIffIsHot(GateAfter(threshold, init), threshold, init);
    }
    HotIffIsHot(GateAfter(threshold, t), threshold, t);
  }

  // ---------------------------------------------------------------- spacing and persistence

  /** The numbers of the rounds rise. */
  predicate RoundsRise(t: Trace) {
    forall i, j | 0 <= i < j < |t| && t[i].Round? && t[j].Round? :: t[i].idx < t[j].idx
  }

  /** Rounds are numbered from 1 upward. */
  predicate RoundsFromOne(t: Trace) {
    RoundsRise(t) && forall i | 0 <= i < |t| && t[i].Round? :: 1 <= t[i].idx
  }

  /** A reminder was given at position `i` of the trace. */
  ghost predicate RemindedAt(threshold: int, t: Trace, i: int) {
    0 <= i < |t| && t[i].Round? && Due(threshold, t[..i], t[i].idx)
  }

  /** The last reminder before `j` is the latest there was; without one the number is 0. */
  lemma {:induction false} LastReminderIsLast(threshold: int, t: Trace, j: nat)
    requires j <= |t| && RoundsRise(t)
    ensures var last := LastReminder(threshold, t[..j]);
      || (last == 0 && forall i | i < j :: !RemindedAt(threshold, t, i))
      || exists k :: k < j && RemindedAt(threshold, t, k) && t[k].idx == last
                     && forall i | i < j && RemindedAt(threshold, t, i) :: t[i].idx <= last
  {
    if j > 0 {
      LastReminderIsLast(threshold, t, j - 1);
      assert t[..j][..j - 1] == t[..j - 1];
      if RemindedAt(threshold, t, j - 1) {
        assert LastReminder(threshold, t[..j]) == t[j - 1].idx;
      }
    }
  }

  /**
   * Two reminders less than five rounds apart have a reminder in round 0 at the first of them or
   * between: only that round is taken for none at all.
   */
  lemma CloseRemindersHaveRoundZero(threshold: int, t: Trace, i: int, j: int)
    requires RoundsRise(t) && i < j
    requires RemindedAt(threshold, t, i) && RemindedAt(threshold, t, j)
    requires t[j].idx - t[i].idx < REMIND_INTERVAL
    ensures exists k :: i <= k < j && RemindedAt(threshold, t, k) && t[k].idx == 0
  {
    LastReminderIsLast(threshold, t, j);
    var last := LastReminder(threshold, t[..j]);
    var k :| k < j && RemindedAt(threshold, t, k) && t[k].idx == last
             && forall i | i < j && RemindedAt(threshold, t, i) :: t[i].idx <= last;
    assert t[i].idx <= t[k].idx;
  }

  /** Two reminders are at least five rounds apart. */
  lemma RemindersSpaced(threshold: int, t: Trace, i: int, j: int)
    requires RoundsFromOne(t) && i < j
    requires RemindedAt(threshold, t, i) && RemindedAt(threshold, t, j)
    ensures t[j].idx - t[i].idx >= REMIND_INTERVAL
  {
    if t[j].idx - t[i].idx < REMIND_INTERVAL {
      CloseRemindersHaveRoundZero(threshold, t, i, j);
    }
  }

  /**
   * A round that ends with a hot workspace but without a reminder follows a reminder by less than
   * five rounds; so while a workspace stays hot, every five consecutive rounds bring one.
   */
  lemma SilenceFollowsReminder(threshold: int, t: Trace, j: int, ws: string)
    requires RoundsRise(t) && 0 <= j < |t| && t[j].Round?
    requires IsHot(threshold, t[..j], ws) && !RemindedAt(threshold, t, j)
    ensures exists i :: i < j && RemindedAt(threshold, t, i) && t[j].idx - t[i].idx < REMIND_INTERVAL
  {
    LastReminderIsLast(threshold, t, j);
    var last := LastReminder(threshold, t[..j]);
    assert last != 0 && t[j].idx - last < REMIND_INTERVAL;
  }

  /** Five consecutive rounds, each ending with some hot workspace, include a reminder. */
  lemma OneInFiveRounds(threshold: int, t: Trace, ends: seq<int>, hot: seq<string>)
    requires RoundsRise(t) && |ends| == |hot| == REMIND_INTERVAL
    requires forall k | 0 <= k < |ends| :: 0 <= ends[k] < |t| && t[ends[k]].Round?
    requires forall k | 0 <= k < |ends| :: t[ends[k]].idx == t[ends[0]].idx + k
    requires forall i | 0 <= i < |t| && t[i].Round? && t[ends[0]].idx <= t[i].idx <= t[ends[4]].idx :: i in ends
    requires forall k | 0 <= k < |ends| :: IsHot(threshold, t[..ends[k]], hot[k])
    ensures exists k :: 0 <= k < |ends| && RemindedAt(threshold, t, ends[k])
  {
    if !RemindedAt(threshold, t, ends[4]) {
      SilenceFollowsReminder(threshold, t, ends[4], hot[4]);
      var i :| i < ends[4] && RemindedAt(threshold, t, i) && t[ends[4]].idx - t[i].idx < REMIND_INTERVAL;
      assert i in ends;
      var k :| 0 <= k < |ends| && ends[k] == i;
    }
  }

  lemma RoundKeepsHeat(t: Trace, ws: string, idx: int)
    ensures WritesSince(t + [Round(idx)], ws) == WritesSince(t, ws)
  {
    assert (t + [Round(idx)])[..|t|] == t;
  }

  /** A reminder is forgotten if it is given in round 0: any hot round after it brings another. */
  lemma RoundZeroForgets(threshold: int, t: Trace, ws: string, idx: int)
    requires Due(threshold, t, 0) && IsHot(threshold, t, ws)
    ensures var run := t + [Round(0), Round(idx)];
      RemindedAt(threshold, run, |t|) && RemindedAt(threshold, run, |t| + 1)
  {
    var run := t + [Round(0), Round(idx)];
    var next := t + [Round(0)];
    assert run[..|t|] == t && run[..|t| + 1] == next && next[..|t|] == t;
    RoundKeepsHeat(t, ws, 0);
    assert IsHot(threshold, next, ws);
    assert LastReminder(threshold, next) == 0;
  }
}
