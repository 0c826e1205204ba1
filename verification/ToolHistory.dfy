/** Compacting the old tool-call rounds of a conversation. */
module ToolHistory {
  import opened Options
  import opened Messages
  import opened ToolResults
  import Iteration

  /**
   * What the compactor needs from Python's runtime: the text of a multipart content, and the
   * arguments of a call without their large field, where the JSON parser finds one.
   */
  datatype Runtime = Runtime(render: seq<Block> -> string, strip: (string, string) -> Option<string>)

  // ---------------------------------------------------------------- one message

  /** `str(msg.get("content") or "")`. */
  function ContentText(c: Content, rt: Runtime): string {
    match c
    case Absent => ""
    case Text(text) => text
    case Multipart(blocks) => if blocks == [] then "" else rt.render(blocks)
  }

  function CompactResult(m: Message, rt: Runtime): Message {
    m.(content := Text(Summary(ContentText(m.content, rt))))
  }

  function CompactArguments(f: FunctionCall, rt: Runtime): FunctionCall {
    match rt.strip(f.name, f.arguments)
    case Some(stripped) => f.(arguments := stripped)
    case None => if |f.arguments| > 500 then f.(arguments := f.arguments[..200] + "...") else f
  }

  function CompactCall(tc: ToolCall, rt: Runtime): ToolCall {
    match tc.function_
    case None => tc
    case Some(f) => if f.arguments == [] then tc else tc.(function_ := Some(CompactArguments(f, rt)))
  }

  function CompactCalls(calls: seq<ToolCall>, rt: Runtime): (r: seq<ToolCall>)
    ensures |r| == |calls|
    ensures forall i | 0 <= i < |r| :: r[i] == CompactCall(calls[i], rt)
  {
    if calls == [] then [] else [CompactCall(calls[0], rt)] + CompactCalls(calls[1..], rt)
  }

  function TrimNote(c: Content): Content {
    match c
    case Absent => Text("")
    case Text(text) => if |text| > 200 then Text(text[..200] + "...") else c
    case Multipart(blocks) => if blocks == [] then Text("") else c
  }

  function CompactAssistant(m: Message, rt: Runtime): Message {
    m.(content := TrimNote(m.content), toolCalls := CompactCalls(m.toolCalls, rt))
  }

  /** The compactor cannot cut a multipart note of more than 200 blocks: it raises a type error. */
  predicate Compactable(m: Message) {
    m.role.Assistant? && m.content.Multipart? ==> |m.content.blocks| <= 200
  }

  // ---------------------------------------------------------------- rounds

  /** A tool-call message of the assistant starts a round. */
  predicate StartsRound(m: Message) {
    m.role.Assistant? && m.toolCalls != []
  }

  /** The indices at which rounds start, in order. */
  function RoundStarts(ms: seq<Message>): (starts: seq<nat>)
    ensures forall k | 0 <= k < |starts| :: starts[k] < |ms| && StartsRound(ms[starts[k]])
    ensures forall j, k | 0 <= j < k < |starts| :: starts[j] < starts[k]
  {
    if ms == [] then []
    else
      var n := |ms| - 1;
      if StartsRound(ms[n]) then RoundStarts(ms[..n]) + [n] else RoundStarts(ms[..n])
  }

  /** The length of `starts[:-keep]` for a list of `n` elements. */
  function CutLength(n: nat, keep: int): (cut: nat)
    ensures cut <= n
  {
    if keep > 0 then if n <= keep then 0 else n - keep
    else if -keep <= n then -keep
    else n
  }

  predicate Belongs(parent: int, starts: seq<nat>) {
    exists k | 0 <= k < |starts| :: starts[k] == parent
  }

  /** The last round start before `i`, or -1. */
  function ParentRound(starts: seq<nat>, i: nat): (parent: int)
    ensures parent < i
    ensures parent == -1 || Belongs(parent, starts)
  {
    if starts == [] then -1
    else if starts[|starts| - 1] < i then starts[|starts| - 1]
    else ParentRound(starts[..|starts| - 1], i)
  }

  function CompactAt(ms: seq<Message>, i: nat, starts: seq<nat>, old_: seq<nat>, rt: Runtime): Message
    requires i < |ms|
  {
    var m := ms[i];
    if m.role.System? && m.content.Multipart? then m
    else if m.role.Tool? && i > 0 && Belongs(ParentRound(starts, i), old_) then CompactResult(m, rt)
    else if Belongs(i, old_) && m.role.Assistant? then CompactAssistant(m, rt)
    else m
  }

  /** The specification of `compact_tool_history`. */
  function Compact(ms: seq<Message>, keep: int, rt: Runtime): (r: seq<Message>)
    ensures |r| == |ms|
  {
    var starts := RoundStarts(ms);
    if |starts| <= keep then ms
    else seq(|ms|, i requires 0 <= i < |ms| => CompactAt(ms, i, starts, starts[..CutLength(|starts|, keep)], rt))
  }

  /** The starts of the rounds that are compacted: all but the last `keep`. */
  function OldStarts(ms: seq<Message>, keep: int): (r: seq<nat>)
    ensures forall k | 0 <= k < |r| :: r[k] < |ms|
  {
    var starts := RoundStarts(ms);
    if |starts| <= keep then [] else starts[..CutLength(|starts|, keep)]
  }

  method FindRoundStarts(ms: seq<Message>) returns (starts: seq<nat>)
    ensures starts == RoundStarts(ms)
  {
    starts := [];
    for i := 0 to |ms|
      invariant starts == RoundStarts(ms[..i])
    {
      assert ms[..i + 1][..i] == ms[..i];
      if StartsRound(ms[i]) {
        starts := starts + [i];
      }
    }
    assert ms[..|ms|] == ms;
  }

  method FindParentRound(starts: seq<nat>, i: nat) returns (parent: int)
    ensures parent == ParentRound(starts, i)
  {
    var k := |starts|;
    assert starts[..k] == starts;
    while 0 < k && starts[k - 1] >= i
      invariant 0 <= k <= |starts|
      invariant ParentRound(starts, i) == ParentRound(starts[..k], i)
    {
      assert starts[..k][..k - 1] == starts[..k - 1];
      k := k - 1;
    }
    parent := if k == 0 then -1 else starts[k - 1];
  }

  method CompactOne(ms: seq<Message>, i: nat, starts: seq<nat>, old_: seq<nat>, rt: Runtime) returns (r: Option<Message>)
    requires i < |ms|
    ensures r == if Belongs(i, old_) && !Compactable(ms[i]) then None else Some(CompactAt(ms, i, starts, old_, rt))
  {
    var m := ms[i];
    if m.role.System? && m.content.Multipart? {
      return Some(m);
    }
    if m.role.Tool? && i > 0 {
      var parent := FindParentRound(starts, i);
      if Belongs(parent, old_) {
        return Some(CompactResult(m, rt));
      }
    }
    if Belongs(i, old_) && m.role.Assistant? {
      return if Compactable(m) then Some(CompactAssistant(m, rt)) else None;
    }
    r := Some(m);
  }

  /** Some compacted round has a note of more than 200 blocks. */
  predicate Raises(ms: seq<Message>, keep: int) {
    exists k :: 0 <= k < |OldStarts(ms, keep)| && !Compactable(ms[OldStarts(ms, keep)[k]])
  }

  /** `None` stands for the type error that such a note leads to. */
  method CompactToolHistory(ms: seq<Message>, keep: int, rt: Runtime) returns (result: Option<seq<Message>>)
    ensures result == if Raises(ms, keep) then None else Some(Compact(ms, keep, rt))
  {
    var starts := FindRoundStarts(ms);
    if |starts| <= keep {
      return Some(ms);
    }
    var old_ := starts[..CutLength(|starts|, keep)];
    var compacted: seq<Message> := [];
    for i := 0 to |ms|
      invariant |compacted| == i
      invariant forall k | 0 <= k < i :: compacted[k] == CompactAt(ms, k, starts, old_, rt)
      invariant forall k | 0 <= k < i && Belongs(k, old_) :: Compactable(ms[k])
    {
      var m := CompactOne(ms, i, starts, old_, rt);
      if m == None {
        ghost var k :| 0 <= k < |old_| && old_[k] == i;
        assert OldStarts(ms, keep)[k] == i;
        return None;
      }
      compacted := compacted + [m.value];
    }
    forall k | 0 <= k < |old_|
      ensures Compactable(ms[old_[k]])
    {
      assert Belongs(old_[k], old_);
    }
    assert OldStarts(ms, keep) == old_ && compacted == Compact(ms, keep, rt);
    result := Some(compacted);
  }

  // ---------------------------------------------------------------- what every compaction keeps

  /** Message `i` is the assistant message or a tool result of a compacted round. */
  predicate InOldRound(ms: seq<Message>, keep: int, i: nat)
    requires i < |ms|
  {
    || (ms[i].role.Assistant? && Belongs(i, OldStarts(ms, keep)))
    || (ms[i].role.Tool? && Belongs(ParentRound(RoundStarts(ms), i), OldStarts(ms, keep)))
  }

  lemma CompactEntry(ms: seq<Message>, keep: int, rt: Runtime, i: nat)
    requires i < |ms|
    ensures Compact(ms, keep, rt)[i] ==
      if !InOldRound(ms, keep, i) then ms[i]
      else if ms[i].role.Tool? then CompactResult(ms[i], rt)
      else CompactAssistant(ms[i], rt)
  {
  }

  predicate SameCall(a: ToolCall, b: ToolCall) {
    && a.id == b.id
    && a.function_.Some? == b.function_.Some?
    && (a.function_.Some? ==> a.function_.value.name == b.function_.value.name)
  }

  /** Same role, same tool-call ids and same function names. */
  predicate SameShape(a: Message, b: Message) {
    && a.role == b.role && a.toolCallId == b.toolCallId
    && |a.toolCalls| == |b.toolCalls|
    && forall k | 0 <= k < |a.toolCalls| :: SameCall(a.toolCalls[k], b.toolCalls[k])
  }

  /** Compaction keeps the number, order, roles, call ids and function names of all messages. */
  lemma CompactKeepsShape(ms: seq<Message>, keep: int, rt: Runtime)
    ensures |Compact(ms, keep, rt)| == |ms|
    ensures forall i | 0 <= i < |ms| :: SameShape(ms[i], Compact(ms, keep, rt)[i])
  {
    forall i | 0 <= i < |ms|
      ensures SameShape(ms[i], Compact(ms, keep, rt)[i])
    {
      CompactEntry(ms, keep, rt, i);
      AssistantShape(ms[i], rt);
    }
  }

  lemma AssistantShape(m: Message, rt: Runtime)
    ensures SameShape(m, CompactAssistant(m, rt))
  {
    forall k | 0 <= k < |m.toolCalls|
      ensures SameCall(m.toolCalls[k], CompactCalls(m.toolCalls, rt)[k])
    {
      assert CompactCalls(m.toolCalls, rt)[k] == CompactCall(m.toolCalls[k], rt);
    }
  }

  /** Messages outside the compacted rounds are unchanged; with `keep` 0 that is every message. */
  lemma OthersUnchanged(ms: seq<Message>, keep: int, rt: Runtime, i: nat)
    requires i < |ms| && (keep == 0 || !InOldRound(ms, keep, i))
    ensures Compact(ms, keep, rt)[i] == ms[i]
  {
    CompactEntry(ms, keep, rt, i);
  }

  lemma {:induction false} ParentIsLast(starts: seq<nat>, i: nat, k: nat)
    requires forall a, b | 0 <= a < b < |starts| :: starts[a] < starts[b]
    requires k < |starts| && starts[k] < i
    ensures starts[k] <= ParentRound(starts, i)
  {
    var n := |starts| - 1;
    if starts[n] >= i {
      ParentIsLast(starts[..n], i, k);
    }
  }

  lemma NotInPrefix(starts: seq<nat>, first: nat, x: int)
    requires forall a, b | 0 <= a < b < |starts| :: starts[a] < starts[b]
    requires first < |starts| && starts[first] <= x
    ensures !Belongs(x, starts[..first])
  {
  }

  lemma ParentRecent(starts: seq<nat>, first: nat, i: nat)
    requires forall a, b | 0 <= a < b < |starts| :: starts[a] < starts[b]
    requires first < |starts| && starts[first] < i
    ensures !Belongs(ParentRound(starts, i), starts[..first])
  {
    ParentIsLast(starts, i, first);
    NotInPrefix(starts, first, ParentRound(starts, i));
  }

  lemma RecentNotOld(ms: seq<Message>, keep: int, i: nat)
    requires 1 <= keep < |RoundStarts(ms)| && i < |ms|
    requires RoundStarts(ms)[|RoundStarts(ms)| - keep] <= i
    ensures !InOldRound(ms, keep, i)
  {
    var starts := RoundStarts(ms);
    var first := |starts| - keep;
    assert OldStarts(ms, keep) == starts[..first];
    NotInPrefix(starts, first, i);
    if starts[first] == i {
      assert StartsRound(ms[i]);
    } else {
      ParentRecent(starts, first, i);
    }
  }

  /** With `keep` at least 1, everything from the oldest kept round onward is unchanged. */
  lemma RecentUnchanged(ms: seq<Message>, keep: int, rt: Runtime, i: nat)
    requires 1 <= keep < |RoundStarts(ms)| && i < |ms|
    requires RoundStarts(ms)[|RoundStarts(ms)| - keep] <= i
    ensures Compact(ms, keep, rt)[i] == ms[i]
  {
    RecentNotOld(ms, keep, i);
    OthersUnchanged(ms, keep, rt, i);
  }

  lemma {:induction false} SameStarts(a: seq<Message>, b: seq<Message>)
    requires |a| == |b| && forall i | 0 <= i < |a| :: StartsRound(a[i]) == StartsRound(b[i])
    ensures RoundStarts(a) == RoundStarts(b)
  {
    if a != [] {
      SameStarts(a[..|a| - 1], b[..|b| - 1]);
    }
  }

  /** Compaction does not move the rounds: a later pass sees the same ones. */
  lemma RoundsStay(ms: seq<Message>, keep: int, rt: Runtime)
    ensures RoundStarts(Compact(ms, keep, rt)) == RoundStarts(ms)
    ensures OldStarts(Compact(ms, keep, rt), keep) == OldStarts(ms, keep)
  {
    CompactKeepsShape(ms, keep, rt);
    var after := Compact(ms, keep, rt);
    assert forall i | 0 <= i < |ms| :: SameShape(ms[i], after[i]) ==> StartsRound(ms[i]) == StartsRound(after[i]);
    SameStarts(ms, after);
  }

  // ---------------------------------------------------------------- compacting again and again

  lemma {:induction false} RoundStartsAppend(a: seq<Message>, b: seq<Message>)
    ensures RoundStarts(a) <= RoundStarts(a + b)
    ensures forall k | |RoundStarts(a)| <= k < |RoundStarts(a + b)| :: |a| <= RoundStarts(a + b)[k]
  {
    if b == [] {
      assert a + b == a;
    } else {
      RoundStartsAppend(a, b[..|b| - 1]);
      assert (a + b)[..|a + b| - 1] == a + b[..|b| - 1];
    }
  }

  lemma {:induction false} ParentAppend(starts: seq<nat>, more: seq<nat>, i: nat)
    requires starts <= more && forall k | |starts| <= k < |more| :: i <= more[k]
    ensures ParentRound(more, i) == ParentRound(starts, i)
  {
    if |starts| < |more| {
      ParentAppend(starts, more[..|more| - 1], i);
    } else {
      assert starts == more;
    }
  }

  /** New messages make no old round recent. */
  lemma OldStaysOld(ms: seq<Message>, keep: int, new_: seq<Message>)
    ensures OldStarts(ms, keep) <= OldStarts(ms + new_, keep)
  {
    RoundStartsAppend(ms, new_);
  }

  /** Message `i` belongs to a compacted round, and is `m`. */
  predicate OldMessage(ms: seq<Message>, keep: int, i: nat, m: Message) {
    i < |ms| && InOldRound(ms, keep, i) && ms[i] == m
  }

  lemma BelongsAppend(x: int, starts: seq<nat>, more: seq<nat>)
    requires starts <= more && Belongs(x, starts)
    ensures Belongs(x, more)
  {
    var k :| 0 <= k < |starts| && starts[k] == x;
    assert more[k] == x;
  }

  lemma OldMessageStays(ms: seq<Message>, keep: int, new_: seq<Message>, i: nat, m: Message)
    requires OldMessage(ms, keep, i, m)
    ensures OldMessage(ms + new_, keep, i, m)
  {
    RoundStartsAppend(ms, new_);
    ParentAppend(RoundStarts(ms), RoundStarts(ms + new_), i);
    OldStaysOld(ms, keep, new_);
    if m.role.Tool? {
      BelongsAppend(ParentRound(RoundStarts(ms), i), OldStarts(ms, keep), OldStarts(ms + new_, keep));
    } else {
      BelongsAppend(i, OldStarts(ms, keep), OldStarts(ms + new_, keep));
    }
  }

  function CompactMessage(m: Message, rt: Runtime): Message {
    if m.role.Tool? then CompactResult(m, rt) else CompactAssistant(m, rt)
  }

  /** One pass compacts an old message and leaves it an old message. */
  lemma OnePass(ms: seq<Message>, keep: int, rt: Runtime, i: nat, m: Message)
    requires OldMessage(ms, keep, i, m)
    ensures OldMessage(Compact(ms, keep, rt), keep, i, CompactMessage(m, rt))
  {
    CompactEntry(ms, keep, rt, i);
    RoundsStay(ms, keep, rt);
  }

  function Compactor(rt: Runtime): Message -> Message {
    (m: Message) => CompactMessage(m, rt)
  }

  /** A turn of the conversation: new messages, then a compaction, which may raise the type error. */
  function Turn(c: Option<seq<Message>>, new_: seq<Message>, keep: int, rt: Runtime): Option<seq<Message>> {
    if c == None || Raises(c.value + new_, keep) then None else Some(Compact(c.value + new_, keep, rt))
  }

  /** The conversation after a turn for each batch of new messages; `None` once a compaction has raised. */
  function Converse(ms: seq<Message>, batches: seq<seq<Message>>, keep: int, rt: Runtime): Option<seq<Message>> {
    Iteration.Fold((c: Option<seq<Message>>, new_: seq<Message>) => Turn(c, new_, keep, rt), batches, Some(ms))
  }

  predicate StillOld(c: Option<seq<Message>>, keep: int, i: nat, m: Message) {
    c != None ==> OldMessage(c.value, keep, i, m)
  }

  lemma OneTurn(c: Option<seq<Message>>, keep: int, rt: Runtime, new_: seq<Message>, i: nat, m: Message)
    requires StillOld(c, keep, i, m)
    ensures StillOld(Turn(c, new_, keep, rt), keep, i, CompactMessage(m, rt))
  {
    if c != None {
      OldMessageStays(c.value, keep, new_, i, m);
      OnePass(c.value + new_, keep, rt, i, m);
    }
  }

  /** A message of a compacted round is compacted once each turn, whatever is said in between. */
  lemma EachTurnCompacts
    (ms: seq<Message>, batches: seq<seq<Message>>, keep: int, rt: Runtime, i: nat, m: Message)
    requires OldMessage(ms, keep, i, m)
    ensures StillOld(Converse(ms, batches, keep, rt), keep, i, Iteration.Iterate(Compactor(rt), |batches|, m))
  {
    var related := (c: Option<seq<Message>>, m': Message) => StillOld(c, keep, i, m');
    forall c, new_, m' | related(c, m')
      ensures StillOld(Turn(c, new_, keep, rt), keep, i, CompactMessage(m', rt))
    {
      OneTurn(c, keep, rt, new_, i, m');
    }
    Iteration.FoldSimulates((c: Option<seq<Message>>, new_: seq<Message>) => Turn(c, new_, keep, rt),
      Compactor(rt), related, batches, Some(ms), m);
  }

  // ---------------------------------------------------------------- what a message settles to

  /** A cut text is no JSON, and what is left of arguments after removing their large field stays so. */
  ghost predicate Stable(rt: Runtime) {
    && (forall name, text :: rt.strip(name, text + "...") == None)
    && (forall name, text :: rt.strip(name, text) != None ==>
          rt.strip(name, rt.strip(name, text).value) == rt.strip(name, text))
  }

  lemma ArgumentsSettle(f: FunctionCall, rt: Runtime)
    requires Stable(rt)
    ensures CompactArguments(CompactArguments(f, rt), rt) == CompactArguments(f, rt)
  {
    if rt.strip(f.name, f.arguments) == None && |f.arguments| > 500 {
      assert rt.strip(f.name, f.arguments[..200] + "...") == None;
    }
  }

  lemma CallSettles(tc: ToolCall, rt: Runtime)
    requires Stable(rt)
    ensures CompactCall(CompactCall(tc, rt), rt) == CompactCall(tc, rt)
  {
    if tc.function_ != None {
      ArgumentsSettle(tc.function_.value, rt);
    }
  }

  lemma CallsSettle(calls: seq<ToolCall>, rt: Runtime)
    requires Stable(rt)
    ensures CompactCalls(CompactCalls(calls, rt), rt) == CompactCalls(calls, rt)
  {
    forall k | 0 <= k < |calls|
      ensures CompactCall(CompactCalls(calls, rt)[k], rt) == CompactCalls(calls, rt)[k]
    {
      CallSettles(calls[k], rt);
    }
  }

  lemma NoteSettles(c: Content)
    ensures TrimNote(TrimNote(c)) == TrimNote(c)
  {
    if c.Text? && |c.text| > 200 {
      assert (c.text[..200] + "...")[..200] == c.text[..200];
    }
  }

  /** An assistant message changes at its first compaction only. */
  lemma AssistantSettles(m: Message, rt: Runtime)
    requires Stable(rt)
    ensures CompactAssistant(CompactAssistant(m, rt), rt) == CompactAssistant(m, rt)
  {
    NoteSettles(m.content);
    CallsSettle(m.toolCalls, rt);
  }

  /** What the compactions of a message of an old round lead to. */
  function Settled(m: Message, rt: Runtime): Message {
    if m.role.Tool? then m.(content := Text(FinalText(ContentText(m.content, rt)))) else CompactAssistant(m, rt)
  }

  lemma SettledIsFixed(m: Message, rt: Runtime)
    requires Stable(rt)
    ensures CompactMessage(Settled(m, rt), rt) == Settled(m, rt)
  {
    if m.role.Tool? {
      FinalTextFixed(ContentText(m.content, rt));
    } else {
      AssistantSettles(m, rt);
    }
  }

  lemma ResultPasses(m: Message, rt: Runtime, n: nat, text: string)
    requires m.role.Tool? && m.content == Text(text)
    ensures Iteration.Iterate(Compactor(rt), n, m) == m.(content := Text(Passes(n, text)))
  {
    var related := (m': Message, t: string) => m' == m.(content := Text(t));
    Iteration.IterateSimulates(Compactor(rt), Summary, related, n, m, text);
  }

  lemma ResultSettles(m: Message, rt: Runtime) returns (n: nat)
    requires m.role.Tool?
    ensures n > 0 && Iteration.Iterate(Compactor(rt), n, m) == Settled(m, rt)
  {
    var text := ContentText(m.content, rt);
    var first := CompactMessage(m, rt);
    n := FinalTextReached(text);
    ResultPasses(first, rt, n, Summary(text));
    Iteration.IterateStep(Compactor(rt), n, m, first);
    n := n + 1;
  }

  /** After some number of compactions the message has settled for good. */
  lemma MessageSettles(m: Message, rt: Runtime) returns (n: nat)
    requires Stable(rt)
    ensures forall k: nat | n <= k :: Iteration.Iterate(Compactor(rt), k, m) == Settled(m, rt)
  {
    if m.role.Tool? {
      n := ResultSettles(m, rt);
    } else {
      n := 1;
      Iteration.IterateStep(Compactor(rt), 0, m, CompactMessage(m, rt));
    }
    SettledIsFixed(m, rt);
    forall k: nat | n <= k
      ensures Iteration.Iterate(Compactor(rt), k, m) == Settled(m, rt)
    {
      Iteration.FixedStays(Compactor(rt), n, k, m);
    }
  }

  // ---------------------------------------------------------------- whole conversations

  ghost predicate SettledFrom(ms: seq<Message>, rt: Runtime, n: nat, count: nat) {
    forall i, k: nat | 0 <= i < count <= |ms| && n <= k ::
      Iteration.Iterate(Compactor(rt), k, ms[i]) == Settled(ms[i], rt)
  }

  lemma {:induction false} AllSettle(ms: seq<Message>, rt: Runtime, count: nat) returns (n: nat)
    requires Stable(rt) && count <= |ms|
    ensures SettledFrom(ms, rt, n, count)
  {
    if count == 0 {
      n := 0;
    } else {
      var before := AllSettle(ms, rt, count - 1);
      var last := MessageSettles(ms[count - 1], rt);
      n := if before >= last then before else last;
    }
  }

  /**
   * As a conversation grows and is compacted turn by turn, every message that was in a compacted
   * round at some moment settles: some number of turns later it is the same for good.
   */
  lemma OldMessagesSettle(ms: seq<Message>, keep: int, rt: Runtime) returns (n: nat)
    requires Stable(rt)
    ensures forall batches: seq<seq<Message>>, i: nat | n <= |batches| && i < |ms| && InOldRound(ms, keep, i) ::
      StillOld(Converse(ms, batches, keep, rt), keep, i, Settled(ms[i], rt))
  {
    n := AllSettle(ms, rt, |ms|);
    forall batches: seq<seq<Message>>, i: nat | n <= |batches| && i < |ms| && InOldRound(ms, keep, i)
      ensures StillOld(Converse(ms, batches, keep, rt), keep, i, Settled(ms[i], rt))
    {
      EachTurnCompacts(ms, batches, keep, rt, i, ms[i]);
    }
  }

  /** A long tool result that is no error settles to a text of at most 94 characters. */
  lemma LongResultsSettleShort(m: Message, rt: Runtime)
    requires m.role.Tool? && !IsError(ContentText(m.content, rt)) && |ContentText(m.content, rt)| > 80
    ensures Settled(m, rt).content.Text? && |Settled(m, rt).content.text| <= 94
  {
    FinalSummaryFixed(ContentText(m.content, rt));
  }

  function CompactTimes(n: nat, ms: seq<Message>, keep: int, rt: Runtime): seq<Message> {
    Iteration.Iterate((m: seq<Message>) => Compact(m, keep, rt), n, ms)
  }

  /** The message at `i` where no compacted round has it. */
  predicate OtherMessage(ms: seq<Message>, keep: int, i: nat, m: Message) {
    i < |ms| && !InOldRound(ms, keep, i) && ms[i] == m
  }

  lemma OtherPass(ms: seq<Message>, keep: int, rt: Runtime, i: nat, m: Message)
    requires OtherMessage(ms, keep, i, m)
    ensures OtherMessage(Compact(ms, keep, rt), keep, i, m)
  {
    CompactEntry(ms, keep, rt, i);
    RoundsStay(ms, keep, rt);
  }

  lemma OthersStay(n: nat, ms: seq<Message>, keep: int, rt: Runtime, i: nat)
    requires i < |ms| && !InOldRound(ms, keep, i)
    ensures OtherMessage(CompactTimes(n, ms, keep, rt), keep, i, ms[i])
  {
    var related := (h: seq<Message>, m: Message) => OtherMessage(h, keep, i, m);
    forall h, m | related(h, m)
      ensures OtherMessage(Compact(h, keep, rt), keep, i, m)
    {
      OtherPass(h, keep, rt, i, m);
    }
    Iteration.IterateSimulates((h: seq<Message>) => Compact(h, keep, rt), (m: Message) => m, related, n, ms, ms[i]);
    StaysSame(n, ms[i]);
  }

  lemma {:induction false} StaysSame(n: nat, m: Message)
    ensures Iteration.Iterate((m': Message) => m', n, m) == m
  {
    if n > 0 {
      StaysSame(n - 1, m);
    }
  }

  lemma OldAfter(n: nat, ms: seq<Message>, keep: int, rt: Runtime, i: nat)
    requires i < |ms| && InOldRound(ms, keep, i)
    ensures OldMessage(CompactTimes(n, ms, keep, rt), keep, i, Iteration.Iterate(Compactor(rt), n, ms[i]))
  {
    var related := (h: seq<Message>, m: Message) => OldMessage(h, keep, i, m);
    forall h, m | related(h, m)
      ensures OldMessage(Compact(h, keep, rt), keep, i, CompactMessage(m, rt))
    {
      OnePass(h, keep, rt, i, m);
    }
    Iteration.IterateSimulates((h: seq<Message>) => Compact(h, keep, rt), Compactor(rt), related, n, ms, ms[i]);
  }

  lemma SameLength(n: nat, ms: seq<Message>, keep: int, rt: Runtime)
    ensures |CompactTimes(n, ms, keep, rt)| == |ms|
  {
    var related := (h: seq<Message>, k: int) => |h| == k;
    Iteration.IterateSimulates((h: seq<Message>) => Compact(h, keep, rt), (k: int) => k, related, n, ms, |ms|);
    StaysNumber(n, |ms|);
  }

  lemma {:induction false} StaysNumber(n: nat, k: int)
    ensures Iteration.Iterate((k': int) => k', n, k) == k
  {
    if n > 0 {
      StaysNumber(n - 1, k);
    }
  }

  /** Repeated compaction of one history reaches a history that compaction leaves alone. */
  lemma HistorySettles(ms: seq<Message>, keep: int, rt: Runtime) returns (n: nat)
    requires Stable(rt)
    ensures var settled := CompactTimes(n, ms, keep, rt);
      |settled| == |ms| && Compact(settled, keep, rt) == settled
  {
    n := AllSettle(ms, rt, |ms|);
    var settled := CompactTimes(n, ms, keep, rt);
    SameLength(n, ms, keep, rt);
    forall i | 0 <= i < |ms|
      ensures Compact(settled, keep, rt)[i] == settled[i]
    {
      CompactEntry(settled, keep, rt, i);
      if InOldRound(ms, keep, i) {
        OldAfter(n, ms, keep, rt, i);
        SettledIsFixed(ms[i], rt);
      } else {
        OthersStay(n, ms, keep, rt, i);
      }
    }
  }
}
