# Verified models of the patch engine, context trimming and run-level state

Ouroboros is an agent that edits workspaces through a line-based patch format, packs and trims what
it puts into prompts, repairs malformed tool arguments, and keeps a few small pieces of state across
a run: a task plan, a mailbox of owner messages and a gate that asks for verification. gMAS is the
multi-agent library beside it. The modules here model that logic in Dafny and prove what it is for.

- `Options`, `Text`, `PatchMarkers`, `PatchFormat`: Python's `splitlines`, `strip` and `join`, the patch format,
  its parser as an index-driven loop, and a printer, which the repository does not have.
- `Matchers`, `PatchApply`: the three matchers against declarative relations, hunk application, and
  the theorems about edit scripts, reversal and application in rounds.
- `PatchShim`: the stand-alone `apply_patch` script as an object that holds the files, and its
  relation to the in-memory engine.
- `Tokens`, `Chunking`: greedy packing of review sections and its optimality.
- `Messages`, `Iteration`, `ToolResults`, `ToolHistory`: compaction of old tool rounds, once and again.
- `Paragraphs`, `SoftCap`: trimming prunable sections under a token cap.
- `JsonRepair`: the automaton that escapes raw control characters inside JSON literals.
- `TaskPlans`, `TaskPlanStore`: the plan operations as functions with what every run keeps, and the
  store's methods that update plan and subtask objects in place.
- `MailboxFile`, `RecordReader`, `Mailbox`: the mailbox file with its records and what reading it line by
  line makes of them, a decoder, and the protocol of writes and drains as an object and over all runs.
- `VerifyGates`: the verify gate as an object and over all traces.
- `Scheduling`: which agents of a weighted graph lie on a route, and which may run side by side.
- `Factors`, `Aggregation`: trial division, and group-by aggregation of accuracies.

Code that works step by step is a method with loops or a class; its contract ties it to a function
of the inputs or of the old state, and the theorems are lemmas about that function.

`dafny verify dfyconfig.toml` checks the whole project.

## Where code and documentation disagree

The models follow the code. In each case a lemma shows the difference at an input, and the exact
condition for the code to keep the promise is proved.

- The error texts say a patch must start with the begin marker and end with the end marker; both may
  stand anywhere between operations (`PatchFormat.MarkersInAnyOrder`; `PatchFormat.AcceptedIff`).
- Chunks are said to fit the token budget; separators are not counted (`Chunking.WrittenChunkOverCap`;
  `Chunking.ChunksFitIff`, and on the sections alone `Chunking.StretchesFitIff`).
- The verify gate is said to match tool names case-insensitively; it does not
  (`VerifyGates.CapitalIgnored`; `VerifyGates.CaseMatters`). Its rate limit would fail in a round 0
  (`VerifyGates.RoundZeroForgets`), and only there (`VerifyGates.CloseRemindersHaveRoundZero`); the
  agent's loop starts at 1 (`ouroboros/ouroboros/loop.py:5842`).
- Stored plans are meant to read back as they were; a title cut right after a space does not
  (`TaskPlans.CutTitleEndsInSpace`; `TaskPlans.ReloadIdentityIff`).
- The mailbox is meant to deliver every message; a lone surrogate makes the write fail silently
  (`Mailbox.SurrogateLost`), and three separator characters break a record apart and lose it
  (`MailboxFile.SplitRecordDead`; for a run `Mailbox.NothingLostInRunIff`, for the lines of the file
  `MailboxFile.MailboxReadsBackIff`).
- Raw control characters in literals are meant to be escaped; one behind a backslash is not
  (`JsonRepair.NewlineBehindBackslash`; `JsonRepair.StrictIffRepairable`).
- Trimming is meant to bring prompts under the cap; a single-text system prompt is never trimmed
  (`SoftCap.SingleTextNeverTrimmed`), and a pass trims one dynamic block only
  (`SoftCap.SecondBlockKept`; `SoftCap.PassClearsIff` and `SoftCap.ClearedIff`).
- Compacting a tool result twice is not always compacting it once (`ToolResults.SecondPassShortens`;
  `ToolResults.IdempotentIff`).
- A pooled deviation divides by scores less runs; runs without scores make the divisor too small
  (`Aggregation.WrongReport`; `Aggregation.PooledVarianceIff`).

## Model

| member | source | states |
|---|---|---|
| `Text.SplitUnlines` | ouroboros/ouroboros/workspace_patch.py:174-205 | splitting a text of newline-terminated lines gives those lines back, for all lines without any of the line boundaries Python knows |
| `Text.StripShape` | ouroboros/ouroboros/workspace_patch.py:38-39 | what `strip` leaves: no white space at either end, nothing removed from a text that had none, and the empty text exactly for a blank line |
| `PatchMarkers.BoundaryKinds` | ouroboros/ouroboros/workspace_patch.py:75-85 | the lines that end an operation body are exactly those the main loop reads as an end, update, add, delete or end-of-file line; a begin line is not one |
| `PatchFormat.CollectHunks` | ouroboros/ouroboros/workspace_patch.py:109-121 | the hunk loop splits the body at `@@` lines, drops empty hunks and stops at the first action boundary |
| `PatchFormat.CollectContent` | ouroboros/ouroboros/workspace_patch.py:133-140 | the content loop takes `+` lines without their mark and other non-blank lines as they are, up to the first action boundary |
| `PatchFormat.ReadOperation` | ouroboros/ouroboros/workspace_patch.py:104-153 | one operation with its path and body is read, an end-of-file marker behind the body is passed, and at least one line is consumed |
| `PatchFormat.ParseWorkspacePatch` | ouroboros/ouroboros/workspace_patch.py:88-170 | the index-driven loop computes the recursive reading of the patch, with the same error for every malformed patch |
| `PatchFormat.PrintThenParse` | ouroboros/ouroboros/workspace_patch.py:88-170 | every non-empty list of expressible operations survives printing and parsing |
| `PatchFormat.ParseThenPrint` | ouroboros/ouroboros/workspace_patch.py:88-170 | what the parser accepts is expressible (valid paths, at least one hunk, non-empty hunks without `@@` or boundary lines), and printing and parsing it again gives the same operations |
| `PatchFormat.ParserImage` | ouroboros/ouroboros/workspace_patch.py:88-170 | the operation lists the parser can return are exactly the non-empty expressible ones |
| `PatchFormat.AcceptedIff` | ouroboros/ouroboros/workspace_patch.py:94-170 | a patch is accepted if and only if both markers stand at its top level, nothing there is stray or unknown, every operation is complete and there is one; the result is the operations in order |
| `PatchFormat.MarkersInAnyOrder` | ouroboros/ouroboros/workspace_patch.py:164-167 | a patch that ends with the begin marker and starts with the end marker is accepted, although the error texts say otherwise |
| `Matchers.FindSubseq` | ouroboros/ouroboros/workspace_patch.py:20-27 | the result is the first occurrence of the needle, or -1 exactly when there is none |
| `Matchers.FindSubseqRStrip` | ouroboros/ouroboros/workspace_patch.py:30-35 | the same with the ends of all lines stripped |
| `Matchers.Walk` | ouroboros/ouroboros/workspace_patch.py:51-71 | one greedy walk from a given start: where it ends if it reaches the end of the needle |
| `Matchers.FindSubseqBlankFlexible` | ouroboros/ouroboros/workspace_patch.py:42-72 | the search over all starts computes the recursive specification that the next two rows characterise |
| `Matchers.FlexibleExact` | ouroboros/ouroboros/workspace_patch.py:42-72 | for a needle without adjacent blank lines: found if and only if some stretch is the needle with blank lines inserted (none behind a last line that is not blank); the result is the leftmost start and the longest such stretch there |
| `Matchers.FlexibleNeverAdjacent` | ouroboros/ouroboros/workspace_patch.py:57-63 | a needle with two adjacent blank lines is never found, not even in itself |
| `Matchers.CascadeMonotone` | ouroboros/ouroboros/workspace_patch.py:188-197 | an exact match implies a right-stripped one at or before it, and that implies a blank-flexible one starting at or before it unless the needle has adjacent blanks |
| `Matchers.FindStrict` | ouroboros/ouroboros/apply_patch.py:65-67 | the exact search, then the right-stripped one |
| `PatchApply.SplitHunk` | ouroboros/ouroboros/workspace_patch.py:177-187 | the two sides of a hunk: what it expects and what it leaves |
| `PatchApply.LocateHunk` | ouroboros/ouroboros/workspace_patch.py:188-197 | the cascade of the three matchers |
| `PatchApply.ApplyUpdateToText` | ouroboros/ouroboros/workspace_patch.py:173-205 | the imperative application computes the fold of single hunks over the lines, joined again with the final newline rule, and fails exactly when a hunk does |
| `PatchApply.TextFromAddLines` | ouroboros/ouroboros/workspace_patch.py:208-211 | the text of an added file splits back into its lines |
| `PatchApply.LandsAtFirst` | ouroboros/ouroboros/workspace_patch.py:188-190 | a hunk that matches exactly at a position is put there if and only if it matches nowhere before |
| `PatchApply.LandsIffAnchored` | ouroboros/ouroboros/workspace_patch.py:176-201 | every hunk of a multi-hunk patch is put where its author meant it if and only if no old side occurs earlier in the file as the preceding hunks have left it |
| `PatchApply.DiffThenPatch` | ouroboros/ouroboros/workspace_patch.py:88-205 | end to end: an edit script written as anchored hunks parses back to its hunks and turns every text with the old lines into the text with the new ones; deleting all lines of a terminated text leaves a single newline |
| `PatchApply.WholeFilePatch` | ouroboros/ouroboros/workspace_patch.py:88-205 | a one-hunk patch that writes out the whole file needs no anchoring condition |
| `PatchApply.EveryEditExpressible` | ouroboros/ouroboros/workspace_patch.py:88-205 | any list of lines, empty or not, can be turned into any other by some patch text |
| `PatchApply.UnanchoredHunkMisplaced` | ouroboros/ouroboros/workspace_patch.py:176-190 | a patch meant to delete the second of two equal lines deletes the first, because every hunk is searched from the top |
| `PatchApply.PatchThenReverse` | ouroboros/ouroboros/workspace_patch.py:173-205 | an anchored multi-hunk patch followed by its anchored reversal restores the text |
| `PatchApply.ReverseLandsInPlace` | ouroboros/ouroboros/workspace_patch.py:188-201 | the reversal of a hunk lands where the hunk did if and only if its new side does not occur earlier |
| `PatchApply.HunkThenReverse` | ouroboros/ouroboros/workspace_patch.py:188-201 | any hunk that matched exactly is undone by exchanging its `+` and `-` lines, when the reversal lands in place |
| `PatchApply.ApplyHunksFold` | ouroboros/ouroboros/workspace_patch.py:176-201 | applying a list of hunks is applying its first part and then its second, failures included |
| `PatchApply.TwoRounds` | ouroboros/ouroboros/workspace_patch.py:173-205 | two calls, text to text, equal one call while the text between is not empty, if and only if the text was newline-terminated or lines are left at the end |
| `PatchApply.TwoRoundsThroughEmpty` | ouroboros/ouroboros/workspace_patch.py:176-204 | when the first of two calls empties a terminated text, a second call with one hunk equals the single call if and only if the hunk fails in both: unless it only inserts or expects just a blank line |
| `PatchApply.InsertOnTop` | ouroboros/ouroboros/workspace_patch.py:21-22 | a hunk that expects no lines, whatever it inserts, goes to the top of the file |
| `PatchShim.RewriteText` | ouroboros/ouroboros/apply_patch.py:50-75 | the script rewrites the lines hunk by hunk with two matchers and always ends the file with a newline |
| `PatchShim.Shim.ApplyUpdateFile` | ouroboros/ouroboros/apply_patch.py:43-75 | the named file is rewritten, or the exit code says that it is missing (2) or that a hunk did not match (3) and no file has changed |
| `PatchShim.Shim.ApplyAddFile` | ouroboros/ouroboros/apply_patch.py:77-80 | the named file gets the content and no other file changes |
| `PatchShim.Shim.ApplyDeleteFile` | ouroboros/ouroboros/apply_patch.py:82-87 | the named file is gone, if it was there, and no other file changes |
| `PatchShim.Shim.ApplyPatch` | ouroboros/ouroboros/apply_patch.py:97-168 | the main loop, which executes while it reads: final files and exit code for any input, malformed ones included |
| `PatchShim.ShimRunsParsedPatch` | ouroboros/ouroboros/apply_patch.py:97-168 | on every patch the checking parser accepts, the script has the effect of the parsed operations in order up to the first failure |
| `PatchShim.EngineExtendsShim` | ouroboros/ouroboros/apply_patch.py:52-73 | whenever the script matches all hunks, the in-memory engine makes the same lines |
| `PatchShim.TextsAgree` | ouroboros/ouroboros/apply_patch.py:75 | the two engines then write the same text if and only if the text was newline-terminated or lines are left |
| `PatchShim.AddedFilesAgree` | ouroboros/ouroboros/apply_patch.py:77-80 | they write the same added file if and only if it has a line |
| `PatchShim.PatchedAlikeIff` | ouroboros/ouroboros/apply_patch.py:97-168 | on an accepted patch that the script carries out in full, both engines have the same files after every operation if and only if every added file has a line and every update finds its file newline-terminated or leaves it some lines |
| `PatchShim.EngineBridgesBlankLines` | ouroboros/ouroboros/apply_patch.py:65-71 | the extension is strict: a blank line between two wanted ones defeats the script but not the in-memory engine |
| `Chunking.ChunkSections` | ouroboros/ouroboros/review.py:225-248 | the loop with its running token count returns the greedy packing of the non-empty sections, or the one notice when there are none |
| `Chunking.PackIsSplit` | ouroboros/ouroboros/review.py:234-247 | every section lands in exactly one chunk, in order; only chunks of a single section exceed the cap |
| `Chunking.StaysAhead` | ouroboros/ouroboros/review.py:239-244 | with a lighter open chunk the packing never needs more chunks, and at most one fewer |
| `Chunking.GreedyIsOptimal` | ouroboros/ouroboros/review.py:234-247 | no order-preserving split into single sections and groups within the cap has fewer chunks |
| `Chunking.ClosedBecauseFull` | ouroboros/ouroboros/review.py:239-242 | a chunk is closed only because the section that opens the next one did not fit |
| `Chunking.ChunkTokens` | ouroboros/ouroboros/review.py:239-247 | the separators lift a written chunk over its counted tokens by at most a quarter token each, rounded up |
| `Chunking.ChunksFitIff` | ouroboros/ouroboros/review.py:228-248 | the docstring promises chunks within the budget; all chunks of a call are, if and only if no group of sections has, with its separators, more than four characters for each token of the cap |
| `Chunking.StretchesFitIff` | ouroboros/ouroboros/review.py:228-248 | a condition on the sections alone: every stretch of them is chunked within the budget if and only if no stretch that the token count takes for one chunk has, with its separators, more than four characters a token |
| `Chunking.RoomySectionsFit` | ouroboros/ouroboros/review.py:228-248 | what a caller can see to: they are when no section with its heading is longer than four times the cap or a multiple of four characters long |
| `Chunking.WrittenChunkOverCap` | ouroboros/ouroboros/review.py:228-248 | two sections that fill a cap of 20,000 exactly are written as one chunk of 20,001 tokens |
| `ToolResults.OnePassLength` | ouroboros/ouroboros/context.py:702-714 | one pass lengthens a result only at 81 to 93 characters and by at most 13; error results keep at most 200 |
| `ToolResults.LengthensBetween` | ouroboros/ouroboros/context.py:708-714 | it does lengthen every single-line result of such a length, to exactly 94 characters |
| `ToolResults.IdempotentIff` | ouroboros/ouroboros/context.py:702-714 | a second pass changes nothing if and only if the result is an error or short, its first line and the remark are short together, or it has 94 characters and a long first line |
| `ToolResults.SecondPassShortens` | ouroboros/ouroboros/context.py:702-714 | a single line of 100 characters is 95 long after the first pass and 94 after the second |
| `ToolResults.SummariesConverge` | ouroboros/ouroboros/context.py:691-716 | repeated passes over any non-error result of more than 80 characters reach a fixed text of at most 94 characters and stay there |
| `ToolResults.ShortAndErrorResults` | ouroboros/ouroboros/context.py:702-714 | results of at most 80 characters never change, error results not after the first pass |
| `ToolHistory.FindRoundStarts` | ouroboros/ouroboros/context.py:776-779 | the indices of the assistant messages with tool calls, in rising order |
| `ToolHistory.FindParentRound` | ouroboros/ouroboros/context.py:799-803 | the last round start before a message, or none |
| `ToolHistory.CompactToolHistory` | ouroboros/ouroboros/context.py:762-819 | the loop computes the message-by-message compaction for any `keep_recent`, Python slicing with zero and negative values included, and fails exactly when a compacted round has an assistant note of more than 200 blocks |
| `ToolHistory.CompactKeepsShape` | ouroboros/ouroboros/context.py:743-753 | message count, order, roles, tool-call ids and function names stay |
| `ToolHistory.OthersUnchanged` | ouroboros/ouroboros/context.py:785-817 | messages outside the compacted rounds are unchanged; with `keep_recent` 0 that is every message |
| `ToolHistory.RecentUnchanged` | ouroboros/ouroboros/context.py:784-817 | with `keep_recent` at least 1 everything from the oldest kept round onward is unchanged |
| `ToolHistory.RoundsStay` | ouroboros/ouroboros/context.py:774-785 | a later pass sees the same rounds and compacts the same ones |
| `ToolHistory.OldMessageStays` | ouroboros/ouroboros/context.py:784-805 | new messages leave every message of a compacted round in a compacted round |
| `ToolHistory.EachTurnCompacts` | ouroboros/ouroboros/context.py:795-815 | as a conversation grows and is compacted turn by turn, a message of a compacted round is compacted once each turn, until a compaction raises |
| `ToolHistory.OldMessagesSettle` | ouroboros/ouroboros/context.py:691-819 | over any such run of turns every message that was in a compacted round at some moment, tool result or assistant message, is the same for good some turns later |
| `ToolHistory.LongResultsSettleShort` | ouroboros/ouroboros/context.py:702-716 | a long tool result that is no error settles to a text of at most 94 characters |
| `ToolHistory.HistorySettles` | ouroboros/ouroboros/context.py:691-819 | repeated compaction of one history reaches a history that compaction leaves alone |
| `Paragraphs.SplitJoin` | ouroboros/ouroboros/context.py:662-675 | joining with blank lines and splitting are inverse on every list of paragraphs that splitting can yield |
| `Paragraphs.SplitClean` | ouroboros/ouroboros/context.py:662 | splitting loses nothing, and only the last paragraph may end in a line feed |
| `Paragraphs.ParasOfKept` | ouroboros/ouroboros/context.py:662-675 | the paragraphs kept by a pass are the paragraphs of the text it writes |
| `SoftCap.ApplyMessageTokenSoftCap` | ouroboros/ouroboros/context.py:601-688 | the nested loops compute the trimmed messages, the estimates of the given and of the returned messages, and the reported list of trimmed section names |
| `SoftCap.DropLoop` | ouroboros/ouroboros/context.py:662-675 | the paragraph loop with its skip flag, and the header once for every paragraph it starts |
| `SoftCap.KeepsSurvivors` | ouroboros/ouroboros/context.py:662-675 | a paragraph is kept if and only if the last heading at or before it does not exist or is led by none of the headers |
| `SoftCap.DropTextTwice` | ouroboros/ouroboros/context.py:644-675 | passes for several headers, each joining and splitting the text again, drop the sections of all of them and nothing else |
| `SoftCap.DropFromTextMeans` | ouroboros/ouroboros/context.py:661-675 | a pass keeps an in-order subsequence of the paragraphs, none of which starts with the header, and does not lengthen the text |
| `SoftCap.NamedIffTrimmed` | ouroboros/ouroboros/context.py:666-684 | a pass reports a section name if and only if it has removed something |
| `SoftCap.TrimKeeps` | ouroboros/ouroboros/context.py:643-688 | the estimate never rises; dynamic system text loses exactly the sections that some prunable headers lead, whole text messages led by such a header go, and everything else stays |
| `SoftCap.TrimIsLeastPasses` | ouroboros/ouroboros/context.py:644-646 | as many passes are made as the prompt needs to fit, or all six if it never does |
| `SoftCap.TrimIsLeastCut` | ouroboros/ouroboros/context.py:643-688 | a prompt as the builder shapes it loses from its dynamic block exactly the sections led by the first k prunable headers, for the least k that makes it fit |
| `SoftCap.FitsOrNothingLeft` | ouroboros/ouroboros/context.py:643-688 | a prompt as the builder shapes it fits the cap on exit, or no paragraph of its dynamic block starts with any prunable header |
| `SoftCap.PassClearsIff` | ouroboros/ouroboros/context.py:652-678 | with any number of dynamic blocks, a pass clears its header from all of them if and only if it led no paragraph in any but the first that mentions it |
| `SoftCap.SecondBlockKept` | ouroboros/ouroboros/context.py:652-678 | of two dynamic blocks with the same section a pass clears the first only |
| `SoftCap.ClearedIff` | ouroboros/ouroboros/context.py:643-688 | for messages of any shape that end over the cap, a prunable header is gone from the multipart system message if and only if its own pass could clear it |
| `SoftCap.SingleTextNeverTrimmed` | ouroboros/ouroboros/context.py:586-588 | the other shape the builder makes, one system text, is returned untrimmed whatever its size |
| `JsonRepair.FixControlCharsInsideJsonStrings` | ouroboros/ouroboros/tool_args_repair.py:22-57 | the character loop with its two flags computes the repair of the three-state automaton |
| `JsonRepair.RepairPreserves` | ouroboros/ouroboros/tool_args_repair.py:22-57 | the repaired text denotes the same structure and the same characters in every literal when raw newline, carriage return and tab are read leniently, and ends in the same state |
| `JsonRepair.RepairTracksState` | ouroboros/ouroboros/tool_args_repair.py:34-56 | at every prefix the repaired text so far leaves the walker in the same state, inside or outside a literal, as the original |
| `JsonRepair.IdentityIffNoRaw` | ouroboros/ouroboros/tool_args_repair.py:47-56 | the text is unchanged if and only if no raw one stands in a literal without a backslash before it; repairing twice is repairing once |
| `JsonRepair.StrictIffRepairable` | ouroboros/ouroboros/tool_args_repair.py:35-56 | the result meets the ban of section 7 of RFC 8259 on control characters in literals if and only if the original has none there but these three, and none behind a backslash |
| `JsonRepair.NewlineBehindBackslash` | ouroboros/ouroboros/tool_args_repair.py:35-38 | a raw newline behind a backslash in a literal stays, and stays banned |
| `TaskPlans.CreateInv` | ouroboros/ouroboros/task_planner.py:396-426 | a created plan satisfies the invariant |
| `TaskPlans.ApplyFollows` | ouroboros/ouroboros/task_planner.py:428-497 | every operation keeps the invariant, does not move the cursor back, does not touch finished work, and only a revision can lengthen the plan |
| `TaskPlans.EveryRunKeeps` | ouroboros/ouroboros/task_planner.py:396-497 | at every moment of every run the cursor is in range, everything before it is finished, everything after it pending; between any two moments finished subtasks are the same but for white space at the end of a title |
| `TaskPlans.EveryRunBounded` | ouroboros/ouroboros/task_planner.py:396-457 | with lists of at most S steps the plan has at most S times (revisions + 1) subtasks, where revisions counts the revisions of the run |
| `TaskPlans.ReloadIdentityIff` | ouroboros/ouroboros/task_planner.py:182-241 | a plan reads back as stored if and only if no title ends in white space |
| `TaskPlans.ReloadedTitlesStripped` | ouroboros/ouroboros/task_planner.py:185-201 | one reload makes every title stripped, so a second changes nothing |
| `TaskPlans.CutTitleEndsInSpace` | ouroboros/ouroboros/task_planner.py:408 | cutting a long title right after a space makes a plan that does not read back as stored |
| `TaskPlanStore.TaskPlan.Current` | ouroboros/ouroboros/task_planner.py:243-252 | there is none exactly when the plan is complete; otherwise it is the one subtask object at the cursor and carries the record there |
| `TaskPlanStore.TaskPlan.TakeRevision` | ouroboros/ouroboros/task_planner.py:437-455 | the subtasks before the cursor stay, as the same objects, the new ones follow, and revision count and digest are updated |
| `TaskPlanStore.Store.Save` | ouroboros/ouroboros/task_planner.py:330-333 | the update time is set, the creation time only once, and the stored plan is the plan as it stands |
| `TaskPlanStore.Store.CreateFromSteps` | ouroboros/ouroboros/task_planner.py:396-426 | a new plan of new subtask objects is stored, or nothing happens when no entry is a step |
| `TaskPlanStore.Store.StartCurrent` | ouroboros/ouroboros/task_planner.py:459-466 | only the current subtask and the time stamps change; the store holds the new state |
| `TaskPlanStore.Store.CompleteCurrent` | ouroboros/ouroboros/task_planner.py:468-489 | only the current subtask, the cursor and the time stamps change; an unknown status becomes done; without a current subtask nothing changes |
| `TaskPlanStore.Store.FailCurrent` | ouroboros/ouroboros/task_planner.py:491-497 | the current subtask is finished as skipped with the reason in its summary |
| `TaskPlanStore.Store.ApplyRevision` | ouroboros/ouroboros/task_planner.py:428-457 | finished subtasks stay the same objects, the rest is replaced, and the digest and revision count are updated and stored |
| `Mailbox.TaskMailbox.Write` | ouroboros/ouroboros/owner_inject.py:36-57 | exactly one record and a newline are appended to the file, with a fresh id if none is given, or nothing at all if UTF-8 cannot encode id or text |
| `Mailbox.TaskMailbox.Drain` | ouroboros/ouroboros/owner_inject.py:73-96 | the texts returned and the seen set left behind, for any file and any reading of its lines; the file stays |
| `Mailbox.TaskMailbox.DrainUnseen` | ouroboros/ouroboros/owner_inject.py:73-74 | without a set of the caller every drain returns everything again |
| `Mailbox.ExactlyOnceInOrder` | ouroboros/ouroboros/owner_inject.py:36-99 | over any interleaving of writes and drains with one seen set, the concatenated drains are the non-empty texts of the first occurrence of each id, in write order, among the records that could be written and had stayed whole in the file at the last drain |
| `Mailbox.NothingLostInRunIff` | ouroboros/ouroboros/owner_inject.py:36-99 | they are those of everything that was to be written by then if and only if neither id nor text of any message that tells something new has a lone surrogate or one of the three separators |
| `Mailbox.SurrogateLost` | ouroboros/ouroboros/owner_inject.py:45-57 | a message with a lone surrogate is dropped without a trace |
| `Mailbox.UnnamedRepeats` | ouroboros/ouroboros/owner_inject.py:86-93 | an entry without id, which the writer never makes, is delivered by every drain, whatever the file and the seen set |
| `MailboxFile.EncodedIsLineIff` | ouroboros/ouroboros/owner_inject.py:45-55 | a record is written as one line if and only if neither id nor text has one of the three separators that JSON leaves alone and `splitlines` splits at |
| `MailboxFile.SplitRecordDead` | ouroboros/ouroboros/owner_inject.py:45-83 | whatever lines a record with a separator falls apart into, no reader of JSON finds an id or a text in any of them |
| `Mailbox.FileDrains` | ouroboros/ouroboros/owner_inject.py:76-93 | draining the file is draining the entries of its whole records |
| `MailboxFile.MailboxReadsBackIff` | ouroboros/ouroboros/owner_inject.py:45-83 | a drain finds exactly the records written, line for line, if and only if none has such a separator |
| `RecordReader.RecordReadBack` | ouroboros/ouroboros/owner_inject.py:45-52 | a decoder for the record format reads id and text back, whatever they hold |
| `RecordReader.RecordReaderReadsJson` | ouroboros/ouroboros/owner_inject.py:84-93 | that decoder meets everything the mailbox theorems ask of a reader |
| `VerifyGates.VerifyGate.Observe` | ouroboros/ouroboros/discipline.py:119-136 | one tool call: a verify call clears the counter and mark of its workspace, a write call adds one, anything else changes nothing |
| `VerifyGates.VerifyGate.HotWorkspaces` | ouroboros/ouroboros/discipline.py:138-148 | a workspace is in it if and only if the gate is enabled and its counter, 0 if there is none, has reached the threshold |
| `VerifyGates.VerifyGate.BuildReminder` | ouroboros/ouroboros/discipline.py:162-178 | the hot workspaces with their counts, split by whether they were marked before, all marked afterwards, and the round noted |
| `VerifyGates.GateTracks` | ouroboros/ouroboros/discipline.py:100-178 | along any trace a counter equals the write calls since the last verification of its workspace, a reminder comes exactly when due, and marked means reminded since that verification |
| `VerifyGates.RemindersSpaced` | ouroboros/ouroboros/discipline.py:150-170 | two reminders are at least five rounds apart |
| `VerifyGates.SilenceFollowsReminder` | ouroboros/ouroboros/discipline.py:150-160 | a round that ends hot but without a reminder follows one by less than five rounds |
| `VerifyGates.OneInFiveRounds` | ouroboros/ouroboros/discipline.py:150-160 | five consecutive rounds that each end with some hot workspace include a reminder |
| `VerifyGates.CloseRemindersHaveRoundZero` | ouroboros/ouroboros/discipline.py:158-170 | for rising rounds of any number, two reminders closer than that have a reminder in round 0 at the first of them or between |
| `VerifyGates.RoundZeroForgets` | ouroboros/ouroboros/discipline.py:158-159 | a reminder in round 0 is followed by one in any later round that ends hot |
| `VerifyGates.CaseMatters` | ouroboros/ouroboros/discipline.py:122-136 | the docstring says the tool name is matched case-insensitively; letter case makes no difference if and only if the name is no tool in lower case or is in lower case already |
| `VerifyGates.CapitalIgnored` | ouroboros/ouroboros/discipline.py:122-136 | the gate ignores a call of Run_workspace_verify, though not of its lower-case name |
| `Scheduling.Explore` | gmas/src/gmas/execution/scheduler.py:712-723 | the queue-driven search finds exactly the agents that some walk from the given one reaches |
| `Scheduling.ReversedReaches` | gmas/src/gmas/execution/scheduler.py:725-736 | searching backward from the end is searching forward along reversed edges |
| `Scheduling.OnRouteIff` | gmas/src/gmas/execution/scheduler.py:712-739 | an agent lies on a walk from start to end if and only if it is reachable from the start and the end is reachable from it, so intersecting the two searches is right |
| `Scheduling.FilterReachableAgents` | gmas/src/gmas/execution/scheduler.py:646-743 | kept are exactly the agents on some walk from start to end, in their order, and excluded are all others; a name that is not there excludes everyone |
| `Scheduling.RoutesStayInside` | gmas/src/gmas/execution/scheduler.py:738-743 | filtering cuts no route: every kept agent lies on a walk that stays among the kept ones |
| `Scheduling.NextGroup` | gmas/src/gmas/execution/scheduler.py:849-856 | the counters of open predecessors single out the ready agents; with none ready the first open agent is taken |
| `Scheduling.Release` | gmas/src/gmas/execution/scheduler.py:863-865 | after one more execution every counter is again the number of open predecessors, so the floor at 0 is never needed |
| `Scheduling.ParallelGroups` | gmas/src/gmas/execution/scheduler.py:843-867 | the counting loop ends with all agents placed, each group being the next one after those before it |
| `Scheduling.GetParallelGroups` | gmas/src/gmas/execution/scheduler.py:833-867 | the result is those groups by name |
| `Scheduling.EachAgentOnce` | gmas/src/gmas/execution/scheduler.py:848-867 | cycles or not, every agent is in exactly one group, once, and no group is empty |
| `Scheduling.ForcedOnlyWhenStuck` | gmas/src/gmas/execution/scheduler.py:849-856 | an agent is placed before its predecessors only alone, and only when no open agent was ready |
| `Scheduling.LeastLayering` | gmas/src/gmas/execution/scheduler.py:843-867 | no numbering of the agents that rises along every edge gives an agent a number below its group |
| `Scheduling.FewestGroups` | gmas/src/gmas/execution/scheduler.py:843-867 | without a cycle no division that respects the edges has fewer groups |
| `Scheduling.OrderedIffLayering` | gmas/src/gmas/execution/scheduler.py:843-867 | every predecessor is in an earlier group if and only if the graph has a numbering that rises along every edge |
| `Scheduling.OrderedIffAcyclic` | gmas/src/gmas/execution/scheduler.py:843-867 | every predecessor is in an earlier group if and only if the graph has no cycle |
| `Factors.Factorize` | gmas/examples/multi_agent_tools_example.py:57-70 | for n > 1 the result is a non-decreasing list of primes with product n, and the only one; for other n it is n alone |
| `Factors.IsPrime` | gmas/examples/multi_agent_tools_example.py:46-53 | trial division up to the integer square root decides primality |
| `Factors.FactorisationUnique` | gmas/examples/multi_agent_tools_example.py:61-70 | a number has at most one non-decreasing list of primes with that product |
| `Factors.PrimeIffOwnFactorisation` | gmas/examples/multi_agent_tools_example.py:46-70 | a number is prime if and only if its factorisation is the number alone |
| `Aggregation.AggregateRows` | gmas/benchmarks/benchmark_vs_langgraph.py:2155-2230 | row-by-row accumulation into buckets reports exactly the groups that have a row, each once and as if aggregated from its own rows alone, sorted by key |
| `Aggregation.AnyRowOrder` | gmas/benchmarks/benchmark_vs_langgraph.py:2155-2230 | the order of the rows changes nothing in the report of a group but its labels, which are those of its first row; the reports are equal if and only if these are |
| `Aggregation.TotalsAreAccs` | gmas/benchmarks/benchmark_vs_langgraph.py:2107-2128 | the accumulated accuracies of rows built from runs are those of the runs |
| `Aggregation.AccuracyIsOverallMean` | gmas/benchmarks/benchmark_vs_langgraph.py:2189-2194 | the accumulated accuracy of runs is the mean score over the union of their scored samples |
| `Aggregation.GroupAccuracy` | gmas/benchmarks/benchmark_vs_langgraph.py:2107-2221 | so are the accuracies in the report of a group, and there is none exactly when there is no scored sample |
| `Aggregation.VarSumIsDeviations` | gmas/benchmarks/benchmark_vs_langgraph.py:2195-2197 | the accumulated variance is the sum of the squared deviations of every run from its own mean |
| `Aggregation.PooledDivisor` | gmas/benchmarks/benchmark_vs_langgraph.py:2203-2205 | the divisor of the pooled deviation is the degrees of freedom if and only if every run of the group has a scored sample |
| `Aggregation.PooledVarianceIff` | gmas/benchmarks/benchmark_vs_langgraph.py:2189-2205 | the value under the root is the pooled variance of the runs if and only if every run has a scored sample or the scores of each run are all the same |
| `Aggregation.GroupVariance` | gmas/benchmarks/benchmark_vs_langgraph.py:2107-2223 | the same exact condition for both deviations in the report of a group |
| `Aggregation.WrongPooledVariance` | gmas/benchmarks/benchmark_vs_langgraph.py:2203-2205 | for a run with the scores 0 and 1 beside one without scores the pooled variance is 0.5 and the value under the root 0 |
| `Aggregation.WrongReport` | gmas/benchmarks/benchmark_vs_langgraph.py:2203-2223 | that is what the report of such a group holds |

## Left out

- TwoRounds: when the first call empties a newline-terminated text, the exact condition is given for a second call with one hunk (TwoRoundsThroughEmpty); with several, the two runs start from no line and from one blank line and may part or meet again at any later hunk.
- FitsOrNothingLeft: stated for a prompt whose first message is a multipart system message with one dynamic block, the only multipart shape the builder makes; ClearedIff covers messages of any shape, with a condition on the messages as a header's pass finds them.
- ApplyMessageTokenSoftCap: the source edits a deep copy in place; the copy is modelled as a value that is reassigned, so no aliasing inside it is captured.
- OldMessagesSettle and HistorySettles: assume of the parameters that a text cut short with three dots is no JSON and that removing the large field once more changes nothing (`ToolHistory.Stable`).
- PatchedAlikeIff: the code that applies the in-memory helpers to files is not part of this model; each operation is applied with its helper to a map of files.
- BuildReminder: order and wording of the reminder are not modelled, only which workspaces it names, with which counts and in which class.
- Factorize: the factors are a list of numbers, not the joined text, and IsPrime returns a truth value, not the word for it.
- AggregateRows: numbers are reals, and deviations are given by their squares, so rounding is not modelled.
- ApplyPatch: the file system is a map from path text to content; directories, the two spellings of one path, the empty path, newline translation and the messages on standard error are not modelled.
- The text of a multipart content and the removal of a large argument field by the JSON parser are parameters of the history model (`ToolHistory.Runtime`).
- Write: of the errors that make a write fail silently only the failure to encode is modelled, not those of the file system. Characters are Unicode scalar values; a string with lone surrogates, which they leave out, is given by its code points.
- JSON parsing of mailbox lines is a parameter of the drain, of which the theorems need three things only (`MailboxFile.ReadsJson`): it reads written records back, refuses lines whose quotes are unbalanced or that have characters foreign to JSON outside its literals, and finds nothing in a line without a literal.
- Subtask objects hold their fields as one record value, so that an assignment to one field is an assignment of the record.
- Workspace id, delivery contract and subtask task id of a plan: copied and never used by the modelled operations.
- File naming, atomic replacement, retries and archiving of stored plans; loading is modelled as re-reading the records of a plan.
- CaseMatters: lower case is that of the letters A to Z; the few other characters whose lower case is such a letter are left as they are.
- Identifiers from the random generator and clock readings are parameters.
- The permission checks around the patch engine and the tool that exposes it.
- Compaction with the help of a language model, memory recall and prompt text building.
- Trailing-comma removal and the other normalisers of tool arguments: they also rewrite inside literals and keep no clean meaning.
- Language-model clients, HTTP, git, subprocesses, browser, Telegram and Docker code: effects in libraries that are not shown.
- Command line, dashboards, environment parsing, dataset loaders and statistical tests: they would only add easy members.
- Release: weights are reals; in the source one comparison with the threshold is made in the precision of the tensor and the other after conversion, so that for some thresholds (not for the default 0.5) a weight equal to the threshold can count in one and not in the other, and the floor at 0 is then used.
- HotWorkspaces: a set; the counts are in the state, and their descending order is not modelled.
- FilterReachableAgents: requires distinct agent names, as every agent graph has; with repeated names the source searches from the last position of a name only. GetParallelGroups requires the same, and ParallelGroups speaks of positions.
- The rest of the gMAS scheduler and its runners: orders taken from a graph library's topological sort and components, beam search over probabilities, conditional edges and plan steps.
- The main loop of the agent, which calls the modelled operations between calls to a language model.
