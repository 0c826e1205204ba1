/** Trimming prunable sections from a prompt until it fits a soft token cap. */
module SoftCap {
  import opened Tokens
  import opened Messages
  import opened Paragraphs
  import T = Text

  const PRUNABLE := [
    "## Recent chat", "## Recent progress", "## Recent tools",
    "## Recent terminal", "## Recent events", "## Supervisor"]

  // ---------------------------------------------------------------- estimates

  function BlockTokens(blocks: seq<Block>): nat {
    if blocks == [] then 0
    else (if blocks[0].isText then EstimateTokens(blocks[0].text) else 0) + BlockTokens(blocks[1..])
  }

  function MessageTokens(m: Message): nat {
    match m.content
    case Multipart(blocks) => BlockTokens(blocks) + 6
    case Text(text) => EstimateTokens(text) + 6
    case Absent => 1 + 6
  }

  function Estimate(ms: seq<Message>): nat {
    if ms == [] then 0 else MessageTokens(ms[0]) + Estimate(ms[1..])
  }

  // ---------------------------------------------------------------- specification

  /** The paragraph starts with one of the headers. */
  predicate LedBy(para: string, headers: seq<string>) {
    exists k | 0 <= k < |headers| :: T.StartsWith(para, headers[k])
  }

  /** A paragraph that starts a section of its own. */
  predicate IsHeading(para: string) {
    T.StartsWith(para, "##")
  }

  /** Drops the paragraphs of every section led by one of the headers, up to the next heading. */
  function DropSections(paras: seq<string>, headers: seq<string>, skipping: bool): seq<string> {
    if paras == [] then []
    else if LedBy(paras[0], headers) then DropSections(paras[1..], headers, true)
    else
      var skipping' := skipping && !IsHeading(paras[0]);
      (if skipping' then [] else [paras[0]]) + DropSections(paras[1..], headers, skipping')
  }

  function DropFromText(text: string, headers: seq<string>): string {
    T.Join(GAP, DropSections(SplitParas(text), headers, false))
  }

  /** The header once for every paragraph that starts with it. */
  function NamesIn(paras: seq<string>, header: string): seq<string> {
    if paras == [] then []
    else (if T.StartsWith(paras[0], header) then [header] else []) + NamesIn(paras[1..], header)
  }

  /** The dynamic block: text without a cache marker. */
  predicate Dynamic(b: Block) {
    b.isText && !b.cached
  }

  /** Trims the first dynamic block that mentions the header. */
  function TrimBlocks(blocks: seq<Block>, header: string): (r: seq<Block>)
    ensures |r| == |blocks|
  {
    if blocks == [] then []
    else if Dynamic(blocks[0]) && Contains(blocks[0].text, header) then
      [blocks[0].(text := DropFromText(blocks[0].text, [header]))] + blocks[1..]
    else [blocks[0]] + TrimBlocks(blocks[1..], header)
  }

  /** The section names that trimming the blocks reports. */
  function BlockNames(blocks: seq<Block>, header: string): seq<string> {
    if blocks == [] then []
    else if Dynamic(blocks[0]) && Contains(blocks[0].text, header) then NamesIn(SplitParas(blocks[0].text), header)
    else BlockNames(blocks[1..], header)
  }

  predicate SystemParts(m: Message) {
    m.role.System? && m.content.Multipart?
  }

  predicate TextStarts(m: Message, header: string) {
    m.content.Text? && T.StartsWith(m.content.text, header)
  }

  /** One header: trims the first multipart system message or removes the first text that starts with it. */
  function TrimHeader(ms: seq<Message>, header: string): seq<Message> {
    if ms == [] then []
    else if SystemParts(ms[0]) then
      [ms[0].(content := Multipart(TrimBlocks(ms[0].content.blocks, header)))] + ms[1..]
    else if TextStarts(ms[0], header) then ms[1..]
    else [ms[0]] + TrimHeader(ms[1..], header)
  }

  function HeaderNames(ms: seq<Message>, header: string): seq<string> {
    if ms == [] then []
    else if SystemParts(ms[0]) then BlockNames(ms[0].content.blocks, header)
    else if TextStarts(ms[0], header) then [header]
    else HeaderNames(ms[1..], header)
  }

  function TrimHeaders(ms: seq<Message>, headers: seq<string>, cap: int): seq<Message>
    decreases |headers|
  {
    if headers == [] || Estimate(ms) <= cap then ms
    else TrimHeaders(TrimHeader(ms, headers[0]), headers[1..], cap)
  }

  /** The section names that are reported: once for every paragraph or message that starts a section. */
  function Names(ms: seq<Message>, headers: seq<string>, cap: int): seq<string>
    decreases |headers|
  {
    if headers == [] || Estimate(ms) <= cap then []
    else HeaderNames(ms, headers[0]) + Names(TrimHeader(ms, headers[0]), headers[1..], cap)
  }

  /** The specification of `apply_message_token_soft_cap`. */
  function Trim(ms: seq<Message>, cap: int): seq<Message> {
    if cap <= 0 then ms else TrimHeaders(ms, PRUNABLE, cap)
  }

  function TrimmedSections(ms: seq<Message>, cap: int): seq<string> {
    if cap <= 0 then [] else Names(ms, PRUNABLE, cap)
  }

  // ---------------------------------------------------------------- the loops

  lemma SliceStep<A>(s: seq<A>, i: nat, rest: seq<A>)
    requires i < |s|
    ensures s[..i] + ([s[i]] + rest) == s[..i + 1] + rest
  {
  }

  lemma SliceReplace<A>(s: seq<A>, i: nat, x: A)
    requires i < |s|
    ensures s[i := x] == s[..i] + ([x] + s[i + 1..])
  {
  }

  /** One turn of the paragraph loop. */
  lemma DropTurn(paras: seq<string>, i: nat, header: string, skipping: bool)
    requires i < |paras|
    ensures var (p, tail) := (paras[i], paras[i + 1..]);
      var skipping' := T.StartsWith(p, header) || (skipping && !IsHeading(p));
      && DropSections(paras[i..], [header], skipping) ==
           (if skipping' then [] else [p]) + DropSections(tail, [header], skipping')
      && NamesIn(paras[i..], header) == (if T.StartsWith(p, header) then [header] else []) + NamesIn(tail, header)
  {
    assert paras[i..][1..] == paras[i + 1..];
    LedByOne(paras[i], header);
    var rest := DropSections(paras[i + 1..], [header], true);
    assert [] + rest == rest;
  }

  method DropLoop(text: string, header: string) returns (r: string, names: seq<string>)
    ensures r == DropFromText(text, [header])
    ensures names == NamesIn(SplitParas(text), header)
  {
    var paras := SplitParas(text);
    var kept: seq<string>, skipping := [], false;
    names := [];
    for i := 0 to |paras|
      invariant DropSections(paras, [header], false) == kept + DropSections(paras[i..], [header], skipping)
      invariant NamesIn(paras, header) == names + NamesIn(paras[i..], header)
    {
      DropTurn(paras, i, header, skipping);
      KeepParagraph(names, header, NamesIn(paras[i + 1..], header));
      if T.StartsWith(paras[i], header) {
        skipping := true;
        names := names + [header];
        KeepParagraph(kept, paras[i], DropSections(paras[i + 1..], [header], true));
        continue;
      }
      if IsHeading(paras[i]) {
        skipping := false;
      }
      KeepParagraph(kept, paras[i], DropSections(paras[i + 1..], [header], skipping));
      if !skipping {
        kept := kept + [paras[i]];
      }
    }
    assert kept + [] == kept && names + [] == names;
    r := T.Join(GAP, kept);
  }

  lemma LedByOne(para: string, header: string)
    ensures LedBy(para, [header]) <==> T.StartsWith(para, header)
  {
    assert [header][0] == header;
  }

  lemma KeepParagraph<A>(kept: seq<A>, para: A, rest: seq<A>)
    ensures kept + ([para] + rest) == kept + [para] + rest
    ensures kept + ([] + rest) == kept + rest
  {
  }

  method TrimBlocksLoop(blocks: seq<Block>, header: string) returns (r: seq<Block>, names: seq<string>)
    ensures r == TrimBlocks(blocks, header)
    ensures names == BlockNames(blocks, header)
  {
    r, names := blocks, [];
    for j := 0 to |blocks|
      invariant r == blocks && names == []
      invariant TrimBlocks(blocks, header) == blocks[..j] + TrimBlocks(blocks[j..], header)
      invariant BlockNames(blocks, header) == BlockNames(blocks[j..], header)
    {
      assert blocks[j..][1..] == blocks[j + 1..];
      if Dynamic(blocks[j]) && Contains(blocks[j].text, header) {
        var text;
        text, names := DropLoop(blocks[j].text, header);
        r := blocks[j := blocks[j].(text := text)];
        SliceReplace(blocks, j, blocks[j].(text := text));
        return;
      }
      SliceStep(blocks, j, TrimBlocks(blocks[j + 1..], header));
    }
  }

  method TrimHeaderLoop(ms: seq<Message>, header: string) returns (r: seq<Message>, names: seq<string>)
    ensures r == TrimHeader(ms, header)
    ensures names == HeaderNames(ms, header)
  {
    r, names := ms, [];
    for i := 0 to |ms|
      invariant r == ms && names == []
      invariant TrimHeader(ms, header) == ms[..i] + TrimHeader(ms[i..], header)
      invariant HeaderNames(ms, header) == HeaderNames(ms[i..], header)
    {
      assert ms[i..][1..] == ms[i + 1..];
      if SystemParts(ms[i]) {
        var blocks;
        blocks, names := TrimBlocksLoop(ms[i].content.blocks, header);
        var m := ms[i].(content := Multipart(blocks));
        r := ms[i := m];
        SliceReplace(ms, i, m);
        return;
      } else if TextStarts(ms[i], header) {
        r, names := ms[..i] + ms[i + 1..], [header];
        return;
      }
      SliceStep(ms, i, TrimHeader(ms[i + 1..], header));
    }
  }

  method EstimateLoop(ms: seq<Message>) returns (estimated: nat)
    ensures estimated == Estimate(ms)
  {
    estimated := 0;
    for i := 0 to |ms|
      invariant Estimate(ms) == estimated + Estimate(ms[i..])
    {
      assert ms[i..][1..] == ms[i + 1..];
      estimated := estimated + MessageTokens(ms[i]);
    }
  }

  /** One turn of the loop over the headers. */
  lemma HeaderTurn(ms: seq<Message>, all: seq<string>, k: nat, cap: int, named: seq<string>)
    requires k < |all| && Estimate(ms) > cap
    ensures TrimHeaders(ms, all[k..], cap) == TrimHeaders(TrimHeader(ms, all[k]), all[k + 1..], cap)
    ensures named + Names(ms, all[k..], cap)
         == named + HeaderNames(ms, all[k]) + Names(TrimHeader(ms, all[k]), all[k + 1..], cap)
  {
    assert all[k..][1..] == all[k + 1..];
  }

  method ApplyMessageTokenSoftCap(messages: seq<Message>, cap: int)
    returns (pruned: seq<Message>, before: nat, after: nat, trimmed: seq<string>)
    ensures pruned == Trim(messages, cap)
    ensures before == Estimate(messages) && after == Estimate(pruned)
    ensures trimmed == TrimmedSections(messages, cap)
  {
    before := EstimateLoop(messages);
    trimmed := [];
    if cap <= 0 || before <= cap {
      return messages, before, before, [];
    }
    pruned := messages;
    var estimated := before;
    for k := 0 to |PRUNABLE|
      invariant estimated == Estimate(pruned)
      invariant Trim(messages, cap) == TrimHeaders(pruned, PRUNABLE[k..], cap)
      invariant TrimmedSections(messages, cap) == trimmed + Names(pruned, PRUNABLE[k..], cap)
    {
      if estimated <= cap {
        break;
      }
      HeaderTurn(pruned, PRUNABLE, k, cap, trimmed);
      var names;
      pruned, names := TrimHeaderLoop(pruned, PRUNABLE[k]);
      trimmed := trimmed + names;
      estimated := EstimateLoop(pruned);
    }
    assert trimmed + [] == trimmed;
    after := estimated;
  }

  // ---------------------------------------------------------------- paragraphs that stay

  lemma {:induction false} DropKeepsSubseq(paras: seq<string>, headers: seq<string>, skipping: bool)
    ensures IsSubseq(DropSections(paras, headers, skipping), paras)
    decreases paras
  {
    if paras == [] {
    } else if LedBy(paras[0], headers) {
      DropKeepsSubseq(paras[1..], headers, true);
      SubseqSkip(DropSections(paras[1..], headers, true), paras);
    } else {
      var skipping' := skipping && !IsHeading(paras[0]);
      var rest := DropSections(paras[1..], headers, skipping');
      DropKeepsSubseq(paras[1..], headers, skipping');
      if skipping' {
        assert [] + rest == rest;
        SubseqSkip(rest, paras);
      } else {
        assert ([paras[0]] + rest)[1..] == rest;
      }
    }
  }

  lemma {:induction false} DropRemovesLed(paras: seq<string>, headers: seq<string>, skipping: bool)
    ensures forall p | p in DropSections(paras, headers, skipping) :: !LedBy(p, headers)
    decreases paras
  {
    if paras != [] {
      if LedBy(paras[0], headers) {
        DropRemovesLed(paras[1..], headers, true);
      } else {
        DropRemovesLed(paras[1..], headers, skipping && !IsHeading(paras[0]));
      }
    }
  }

  /** The last heading among the first `n` paragraphs, or -1. */
  function LastHeading(paras: seq<string>, n: nat): (j: int)
    requires n <= |paras|
    ensures -1 <= j < n
  {
    if n == 0 then -1 else if IsHeading(paras[n - 1]) then n - 1 else LastHeading(paras, n - 1)
  }

  /** The paragraph's section, if it is in one, is not led by any of the headers. */
  predicate Survives(paras: seq<string>, headers: seq<string>, i: nat)
    requires i < |paras|
  {
    var j := LastHeading(paras, i + 1);
    j == -1 || !LedBy(paras[j], headers)
  }

  function Survivors(paras: seq<string>, headers: seq<string>, n: nat): seq<string>
    requires n <= |paras|
  {
    if n == 0 then []
    else Survivors(paras, headers, n - 1) + (if Survives(paras, headers, n - 1) then [paras[n - 1]] else [])
  }

  predicate AreHeadings(headers: seq<string>) {
    forall k | 0 <= k < |headers| :: IsHeading(headers[k])
  }

  lemma LedIsHeading(para: string, headers: seq<string>)
    requires AreHeadings(headers) && LedBy(para, headers)
    ensures IsHeading(para)
  {
    var k :| 0 <= k < |headers| && T.StartsWith(para, headers[k]);
    assert para[..2] == headers[k][..2];
  }

  lemma {:induction false} DropsTheOthers(paras: seq<string>, headers: seq<string>, n: nat)
    requires AreHeadings(headers) && n <= |paras|
    ensures DropSections(paras, headers, false) == Survivors(paras, headers, n)
      + DropSections(paras[n..], headers, n > 0 && !Survives(paras, headers, n - 1))
  {
    if n == 0 {
      assert paras[0..] == paras;
    } else {
      var i := n - 1;
      DropsTheOthers(paras, headers, i);
      assert paras[i..][0] == paras[i] && paras[i..][1..] == paras[n..];
      if LedBy(paras[i], headers) {
        LedIsHeading(paras[i], headers);
      }
      KeepParagraph(Survivors(paras, headers, i), paras[i],
        DropSections(paras[n..], headers, !Survives(paras, headers, i)));
    }
  }

  /** A paragraph is kept if and only if no header leads the last heading at or before it. */
  lemma KeepsSurvivors(paras: seq<string>, headers: seq<string>)
    requires AreHeadings(headers)
    ensures DropSections(paras, headers, false) == Survivors(paras, headers, |paras|)
  {
    DropsTheOthers(paras, headers, |paras|);
    assert Survivors(paras, headers, |paras|) + [] == Survivors(paras, headers, |paras|);
  }

  lemma LedByEither(para: string, first: seq<string>, second: seq<string>)
    ensures LedBy(para, first + second) <==> LedBy(para, first) || LedBy(para, second)
  {
    var both := first + second;
    assert forall k | 0 <= k < |first| :: both[k] == first[k];
    assert forall k | 0 <= k < |second| :: both[|first| + k] == second[k];
  }

  /** Dropping under some headers and then under others is dropping under all of them. */
  lemma {:induction false} DropTwice(paras: seq<string>, first: seq<string>, second: seq<string>, a: bool, b: bool)
    requires AreHeadings(first) && AreHeadings(second)
    ensures DropSections(DropSections(paras, first, a), second, b) == DropSections(paras, first + second, a || b)
    decreases paras, 0
  {
    if paras != [] {
      var p, rest := paras[0], paras[1..];
      LedByEither(p, first, second);
      if LedBy(p, first) {
        DropTwice(rest, first, second, true, b);
      } else if a && !IsHeading(p) {
        if LedBy(p, second) {
          LedIsHeading(p, second);
        }
        assert [] + DropSections(rest, first, true) == DropSections(rest, first, true);
        DropTwice(rest, first, second, true, b);
      } else {
        KeptThenDropped(p, rest, first, second, a, b);
      }
    }
  }

  lemma {:induction false} KeptThenDropped
    (p: string, rest: seq<string>, first: seq<string>, second: seq<string>, a: bool, b: bool)
    requires AreHeadings(first) && AreHeadings(second)
    requires !LedBy(p, first) && !(a && !IsHeading(p))
    ensures DropSections([p] + DropSections(rest, first, false), second, b)
         == DropSections([p] + rest, first + second, a || b)
    decreases rest, 1
  {
    LedByEither(p, first, second);
    var kept := DropSections(rest, first, false);
    assert ([p] + kept)[1..] == kept && ([p] + rest)[1..] == rest;
    if LedBy(p, second) {
      DropTwice(rest, first, second, false, true);
    } else {
      DropTwice(rest, first, second, false, b && !IsHeading(p));
    }
  }

  lemma {:induction false} DropNothing(paras: seq<string>, headers: seq<string>)
    requires forall p | p in paras :: !LedBy(p, headers)
    ensures DropSections(paras, headers, false) == paras
  {
    if paras != [] {
      DropNothing(paras[1..], headers);
    }
  }

  lemma DropFromEmpty(headers: seq<string>)
    requires AreHeadings(headers)
    ensures DropFromText([], headers) == []
  {
    assert SplitParas([]) == [[]];
    if LedBy([], headers) {
      LedIsHeading([], headers);
    }
    DropNothing([[]], headers);
  }

  lemma JoinEmpty(paras: seq<string>)
    ensures T.Join(GAP, paras) == [] <==> paras == [] || paras == [[]]
  {
  }

  /** The same for texts, which the passes join and split again. */
  lemma DropTextTwice(text: string, first: seq<string>, second: seq<string>)
    requires AreHeadings(first) && AreHeadings(second)
    ensures DropFromText(DropFromText(text, first), second) == DropFromText(text, first + second)
  {
    var paras := SplitParas(text);
    var kept := DropSections(paras, first, false);
    DropTwice(paras, first, second, false, false);
    DropKeepsSubseq(paras, first, false);
    ParasOfKept(text, kept);
    if T.Join(GAP, kept) == [] {
      JoinEmpty(kept);
      DropFromEmpty(second);
    }
  }

  /** No paragraph of the text starts with the header. */
  predicate HeaderFree(text: string, header: string) {
    forall p | p in Paras(text) :: !T.StartsWith(p, header)
  }

  /** Trimming a text keeps a subsequence of its paragraphs, none of which starts with a header. */
  lemma DropFromTextMeans(text: string, headers: seq<string>)
    requires text != []
    ensures IsSubseq(Paras(DropFromText(text, headers)), Paras(text))
    ensures forall p | p in Paras(DropFromText(text, headers)) :: !LedBy(p, headers)
    ensures |DropFromText(text, headers)| <= |text|
  {
    var paras := SplitParas(text);
    DropKeepsSubseq(paras, headers, false);
    DropRemovesLed(paras, headers, false);
    ParasOfKept(text, DropSections(paras, headers, false));
  }

  lemma DropHeaderMeans(text: string, header: string)
    requires text != []
    ensures IsSubseq(Paras(DropFromText(text, [header])), Paras(text))
    ensures HeaderFree(DropFromText(text, [header]), header)
    ensures |DropFromText(text, [header])| <= |text|
  {
    DropFromTextMeans(text, [header]);
    forall p | p in Paras(DropFromText(text, [header]))
      ensures !T.StartsWith(p, header)
    {
      LedByOne(p, header);
    }
  }

  // ---------------------------------------------------------------- what one header keeps

  predicate AreAmong(some: seq<string>, headers: seq<string>) {
    forall k | 0 <= k < |some| :: some[k] in headers
  }

  /** `after` is `before` without the sections of dynamic text that some of the headers lead. */
  ghost predicate BlockTrimmed(before: Block, after: Block, headers: seq<string>) {
    || after == before
    || (Dynamic(before) && after == before.(text := after.text)
        && |after.text| <= |before.text| && IsSubseq(Paras(after.text), Paras(before.text))
        && exists some :: AreAmong(some, headers) && after.text == DropFromText(before.text, some))
  }

  ghost predicate BlocksTrimmed(before: seq<Block>, after: seq<Block>, headers: seq<string>) {
    |after| == |before| && forall j | 0 <= j < |before| :: BlockTrimmed(before[j], after[j], headers)
  }

  /** Only the dynamic text of multipart system messages may change. */
  ghost predicate MessageTrimmed(before: Message, after: Message, headers: seq<string>) {
    || after == before
    || (SystemParts(before) && after.content.Multipart? && after == before.(content := after.content)
        && BlocksTrimmed(before.content.blocks, after.content.blocks, headers))
  }

  /** `after` is `before` with messages trimmed and some header-led text messages removed. */
  ghost predicate Trimmed(before: seq<Message>, after: seq<Message>, headers: seq<string>) {
    if before == [] then after == []
    else
      || (after != [] && MessageTrimmed(before[0], after[0], headers) && Trimmed(before[1..], after[1..], headers))
      || ((exists h | h in headers :: TextStarts(before[0], h)) && Trimmed(before[1..], after, headers))
  }

  lemma AmongAreHeadings(some: seq<string>, headers: seq<string>)
    requires AreAmong(some, headers) && AreHeadings(headers)
    ensures AreHeadings(some)
  {
    forall k | 0 <= k < |some|
      ensures IsHeading(some[k])
    {
      var j :| 0 <= j < |headers| && headers[j] == some[k];
    }
  }

  lemma BlockTrimmedTrans(a: Block, b: Block, c: Block, headers: seq<string>)
    requires AreHeadings(headers)
    requires BlockTrimmed(a, b, headers) && BlockTrimmed(b, c, headers)
    ensures BlockTrimmed(a, c, headers)
  {
    if b != a && c != b {
      SubseqTrans(Paras(c.text), Paras(b.text), Paras(a.text));
      var first :| AreAmong(first, headers) && b.text == DropFromText(a.text, first);
      var second :| AreAmong(second, headers) && c.text == DropFromText(b.text, second);
      AmongAreHeadings(first, headers);
      AmongAreHeadings(second, headers);
      DropTextTwice(a.text, first, second);
      assert AreAmong(first + second, headers);
    }
  }

  lemma MessageTrimmedTrans(a: Message, b: Message, c: Message, headers: seq<string>)
    requires AreHeadings(headers)
    requires MessageTrimmed(a, b, headers) && MessageTrimmed(b, c, headers)
    ensures MessageTrimmed(a, c, headers)
  {
    if b != a && c != b {
      forall j | 0 <= j < |a.content.blocks|
        ensures BlockTrimmed(a.content.blocks[j], c.content.blocks[j], headers)
      {
        BlockTrimmedTrans(a.content.blocks[j], b.content.blocks[j], c.content.blocks[j], headers);
      }
    }
  }

  lemma {:induction false} TrimmedTrans(a: seq<Message>, b: seq<Message>, c: seq<Message>, headers: seq<string>)
    requires AreHeadings(headers)
    requires Trimmed(a, b, headers) && Trimmed(b, c, headers)
    ensures Trimmed(a, c, headers)
    decreases |a| + |b|
  {
    if a != [] {
      if b != [] && MessageTrimmed(a[0], b[0], headers) && Trimmed(a[1..], b[1..], headers) {
        if c != [] && MessageTrimmed(b[0], c[0], headers) && Trimmed(b[1..], c[1..], headers) {
          MessageTrimmedTrans(a[0], b[0], c[0], headers);
          TrimmedTrans(a[1..], b[1..], c[1..], headers);
        } else {
          TrimmedTrans(a[1..], b[1..], c, headers);
        }
      } else {
        TrimmedTrans(a[1..], b, c, headers);
      }
    }
  }

  lemma {:induction false} TrimmedRefl(ms: seq<Message>, headers: seq<string>)
    ensures Trimmed(ms, ms, headers)
  {
    if ms != [] {
      TrimmedRefl(ms[1..], headers);
    }
  }

  lemma OneHeaderTrims(b: Block, header: string, headers: seq<string>)
    requires header in headers && Dynamic(b) && b.text != []
    ensures BlockTrimmed(b, b.(text := DropFromText(b.text, [header])), headers)
  {
    DropHeaderMeans(b.text, header);
    assert AreAmong([header], headers);
  }

  lemma {:induction false} TrimBlocksMeans(blocks: seq<Block>, header: string, headers: seq<string>)
    requires header != [] && header in headers
    ensures BlocksTrimmed(blocks, TrimBlocks(blocks, header), headers)
    ensures BlockTokens(TrimBlocks(blocks, header)) <= BlockTokens(blocks)
  {
    if blocks != [] {
      var b := blocks[0];
      if Dynamic(b) && Contains(b.text, header) {
        DropHeaderMeans(b.text, header);
        OneHeaderTrims(b, header, headers);
        assert ([b.(text := DropFromText(b.text, [header]))] + blocks[1..])[1..] == blocks[1..];
      } else {
        TrimBlocksMeans(blocks[1..], header, headers);
        assert ([b] + TrimBlocks(blocks[1..], header))[1..] == TrimBlocks(blocks[1..], header);
      }
    }
  }

  lemma {:induction false} TrimHeaderMeans(ms: seq<Message>, header: string, headers: seq<string>)
    requires header != [] && header in headers
    ensures Trimmed(ms, TrimHeader(ms, header), headers)
    ensures Estimate(TrimHeader(ms, header)) <= Estimate(ms)
  {
    if ms != [] {
      var m, rest := ms[0], ms[1..];
      TrimmedRefl(rest, headers);
      if SystemParts(m) {
        TrimBlocksMeans(m.content.blocks, header, headers);
        var m' := m.(content := Multipart(TrimBlocks(m.content.blocks, header)));
        assert ([m'] + rest)[1..] == rest;
        assert MessageTrimmed(m, m', headers);
      } else if TextStarts(m, header) {
      } else {
        TrimHeaderMeans(rest, header, headers);
        assert ([m] + TrimHeader(rest, header))[1..] == TrimHeader(rest, header);
      }
    }
  }

  // ---------------------------------------------------------------- what the whole trimming keeps

  lemma {:induction false} TrimHeadersMeans(ms: seq<Message>, todo: seq<string>, cap: int, headers: seq<string>)
    requires AreHeadings(headers) && forall h | h in todo :: h != [] && h in headers
    ensures Trimmed(ms, TrimHeaders(ms, todo, cap), headers)
    ensures Estimate(TrimHeaders(ms, todo, cap)) <= Estimate(ms)
    decreases |todo|
  {
    TrimmedRefl(ms, headers);
    if todo != [] && Estimate(ms) > cap {
      assert todo[0] in todo;
      var next := TrimHeader(ms, todo[0]);
      TrimHeaderMeans(ms, todo[0], headers);
      assert forall h | h in todo[1..] :: h in todo;
      TrimHeadersMeans(next, todo[1..], cap, headers);
      TrimmedTrans(ms, next, TrimHeaders(next, todo[1..], cap), headers);
    }
  }

  lemma PrunableAreHeadings()
    ensures AreHeadings(PRUNABLE)
  {
  }

  /**
   * Trimming never raises the estimate.  It removes whole text messages that start with a prunable
   * header and, from dynamic system text, exactly the sections that some prunable headers lead;
   * every other section, cached blocks and all other messages stay.
   */
  lemma TrimKeeps(ms: seq<Message>, cap: int)
    ensures Trimmed(ms, Trim(ms, cap), PRUNABLE)
    ensures Estimate(Trim(ms, cap)) <= Estimate(ms)
  {
    PrunableAreHeadings();
    TrimmedRefl(ms, PRUNABLE);
    TrimHeadersMeans(ms, PRUNABLE, cap, PRUNABLE);
  }

  /** A section name is reported for a pass if and only if the pass has removed something. */
  lemma {:induction false} NamedIffTrimmed(ms: seq<Message>, header: string)
    requires header != []
    ensures HeaderNames(ms, header) != [] <==> TrimHeader(ms, header) != ms
  {
    if ms != [] {
      var m, rest := ms[0], ms[1..];
      if SystemParts(m) {
        var m' := m.(content := Multipart(TrimBlocks(m.content.blocks, header)));
        BlocksNamedIffTrimmed(m.content.blocks, header);
        assert ([m'] + rest)[0] == m' && [m] + rest == ms;
      } else if !TextStarts(m, header) {
        NamedIffTrimmed(rest, header);
        assert ([m] + TrimHeader(rest, header))[1..] == TrimHeader(rest, header) && [m] + rest == ms;
      }
    }
  }

  lemma {:induction false} BlocksNamedIffTrimmed(blocks: seq<Block>, header: string)
    requires header != []
    ensures BlockNames(blocks, header) != [] <==> TrimBlocks(blocks, header) != blocks
  {
    if blocks != [] {
      var b, rest := blocks[0], blocks[1..];
      if Dynamic(b) && Contains(b.text, header) {
        var b' := b.(text := DropFromText(b.text, [header]));
        TextNamedIffTrimmed(b.text, header);
        assert ([b'] + rest)[0] == b' && [b] + rest == blocks;
      } else {
        BlocksNamedIffTrimmed(rest, header);
        assert ([b] + TrimBlocks(rest, header))[1..] == TrimBlocks(rest, header) && [b] + rest == blocks;
      }
    }
  }

  lemma {:induction false} NamesIffLed(paras: seq<string>, header: string)
    ensures NamesIn(paras, header) != [] <==> exists p | p in paras :: T.StartsWith(p, header)
  {
    if paras != [] {
      NamesIffLed(paras[1..], header);
      assert paras == [paras[0]] + paras[1..];
    }
  }

  lemma TextNamedIffTrimmed(text: string, header: string)
    requires text != [] && header != []
    ensures NamesIn(SplitParas(text), header) != [] <==> DropFromText(text, [header]) != text
  {
    var paras := SplitParas(text);
    NamesIffLed(paras, header);
    SplitClean(text);
    if exists p | p in paras :: T.StartsWith(p, header) {
      DropHeaderMeans(text, header);
    } else {
      forall p | p in paras
        ensures !LedBy(p, [header])
      {
        LedByOne(p, header);
      }
      DropNothing(paras, [header]);
    }
  }

  // ---------------------------------------------------------------- how many passes are made

  /** One pass for each header, whatever the estimate. */
  function Passes(ms: seq<Message>, headers: seq<string>): seq<Message>
    decreases |headers|
  {
    if headers == [] then ms else Passes(TrimHeader(ms, headers[0]), headers[1..])
  }

  lemma {:induction false} PassesAppend(ms: seq<Message>, first: seq<string>, second: seq<string>)
    ensures Passes(ms, first + second) == Passes(Passes(ms, first), second)
    decreases |first|
  {
    if first == [] {
      assert first + second == second;
    } else {
      assert (first + second)[1..] == first[1..] + second;
      PassesAppend(TrimHeader(ms, first[0]), first[1..], second);
    }
  }

  lemma {:induction false} LeastPasses(ms: seq<Message>, all: seq<string>, cap: int) returns (k: nat)
    ensures k <= |all| && TrimHeaders(ms, all, cap) == Passes(ms, all[..k])
    ensures k < |all| ==> Estimate(Passes(ms, all[..k])) <= cap
    ensures forall j | 0 <= j < k :: Estimate(Passes(ms, all[..j])) > cap
    decreases |all|
  {
    k := 0;
    if all != [] && Estimate(ms) > cap {
      var next, rest := TrimHeader(ms, all[0]), all[1..];
      var n := LeastPasses(next, rest, cap);
      k := n + 1;
      assert all[..k][1..] == rest[..n];
      forall j | 0 <= j < k
        ensures Estimate(Passes(ms, all[..j])) > cap
      {
        if j > 0 {
          assert all[..j][1..] == rest[..j - 1];
        }
      }
    }
  }

  /** As many passes are made as the prompt needs to fit, or all of them if it never does. */
  lemma TrimIsLeastPasses(ms: seq<Message>, cap: int) returns (k: nat)
    requires cap > 0
    ensures k <= |PRUNABLE| && Trim(ms, cap) == Passes(ms, PRUNABLE[..k])
    ensures k < |PRUNABLE| ==> Estimate(Trim(ms, cap)) <= cap
    ensures forall j | 0 <= j < k :: Estimate(Passes(ms, PRUNABLE[..j])) > cap
  {
    k := LeastPasses(ms, PRUNABLE, cap);
  }

  // ---------------------------------------------------------------- what is left when it does not fit

  /** The shape the prompt builder makes: a multipart system message first, one dynamic block in it at `d`. */
  predicate BuilderShape(ms: seq<Message>, d: nat) {
    && ms != [] && SystemParts(ms[0]) && d < |ms[0].content.blocks|
    && forall j | 0 <= j < |ms[0].content.blocks| :: Dynamic(ms[0].content.blocks[j]) <==> j == d
  }

  function DynamicText(ms: seq<Message>, d: nat): string
    requires BuilderShape(ms, d)
  {
    ms[0].content.blocks[d].text
  }

  lemma {:induction false} TrimBlocksAt(blocks: seq<Block>, d: nat, header: string)
    requires d < |blocks| && forall j | 0 <= j < |blocks| :: Dynamic(blocks[j]) <==> j == d
    ensures var (b, r) := (blocks[d], TrimBlocks(blocks, header));
      r == blocks[d := if Contains(b.text, header) then b.(text := DropFromText(b.text, [header])) else b]
  {
    if d > 0 {
      TrimBlocksAt(blocks[1..], d - 1, header);
    } else {
      TrimBlocksNone(blocks[1..], header);
      assert blocks == [blocks[0]] + blocks[1..];
    }
  }

  lemma {:induction false} TrimBlocksNone(blocks: seq<Block>, header: string)
    requires forall b | b in blocks :: !Dynamic(b)
    ensures TrimBlocks(blocks, header) == blocks
  {
    if blocks != [] {
      TrimBlocksNone(blocks[1..], header);
    }
  }

  lemma HeaderFreeKept(before: string, after: string, header: string)
    requires HeaderFree(before, header) && IsSubseq(Paras(after), Paras(before))
    ensures HeaderFree(after, header)
  {
    forall p | p in Paras(after)
      ensures !T.StartsWith(p, header)
    {
      SubseqMember(Paras(after), Paras(before), p);
    }
  }

  // ---------------------------------------------------------------- exactly what is cut

  /** The prompt with the sections that the headers lead cut from its dynamic block. */
  function Cut(ms: seq<Message>, d: nat, headers: seq<string>): (r: seq<Message>)
    requires BuilderShape(ms, d)
    ensures BuilderShape(r, d) && DynamicText(r, d) == DropFromText(DynamicText(ms, d), headers)
  {
    var blocks := ms[0].content.blocks;
    ms[0 := ms[0].(content := Multipart(blocks[d := blocks[d].(text := DropFromText(blocks[d].text, headers))]))]
  }

  lemma CutNothing(ms: seq<Message>, d: nat)
    requires BuilderShape(ms, d)
    ensures Cut(ms, d, []) == ms
  {
    var text := DynamicText(ms, d);
    SplitClean(text);
    DropNothing(SplitParas(text), []);
    var blocks := ms[0].content.blocks;
    assert blocks[d := blocks[d]] == blocks && ms[0 := ms[0]] == ms;
  }

  /** One more pass cuts the sections of one more header. */
  lemma CutOneMore(ms: seq<Message>, d: nat, headers: seq<string>, header: string)
    requires BuilderShape(ms, d) && AreHeadings(headers) && IsHeading(header)
    ensures TrimHeader(Cut(ms, d, headers), header) == Cut(ms, d, headers + [header])
  {
    var cut := Cut(ms, d, headers);
    var text := DynamicText(cut, d);
    TrimBlocksAt(cut[0].content.blocks, d, header);
    DropTextTwice(DynamicText(ms, d), headers, [header]);
    if !Contains(text, header) {
      UnmentionedDropsNothing(text, header);
    }
    var blocks, text' := cut[0].content.blocks, DropFromText(text, [header]);
    assert TrimBlocks(blocks, header) == blocks[d := blocks[d].(text := text')];
    assert cut[0 := cut[0]] == [cut[0]] + cut[1..];
    CutAgain(ms, d, headers, header);
  }

  lemma UnmentionedDropsNothing(text: string, header: string)
    requires !Contains(text, header)
    ensures DropFromText(text, [header]) == text
  {
    SplitClean(text);
    forall p | p in SplitParas(text)
      ensures !LedBy(p, [header])
    {
      LedByOne(p, header);
      if T.StartsWith(p, header) {
        ParagraphStart(text, p, header);
      }
    }
    DropNothing(SplitParas(text), [header]);
  }

  lemma CutAgain(ms: seq<Message>, d: nat, headers: seq<string>, header: string)
    requires BuilderShape(ms, d) && AreHeadings(headers) && IsHeading(header)
    ensures Cut(Cut(ms, d, headers), d, [header]) == Cut(ms, d, headers + [header])
  {
    DropTextTwice(DynamicText(ms, d), headers, [header]);
    var once, both := Cut(Cut(ms, d, headers), d, [header]), Cut(ms, d, headers + [header]);
    assert once[0].content.blocks == both[0].content.blocks;
  }

  lemma {:induction false} PassesCut(ms: seq<Message>, d: nat, all: seq<string>, k: nat)
    requires BuilderShape(ms, d) && AreHeadings(all) && k <= |all|
    ensures Passes(ms, all[..k]) == Cut(ms, d, all[..k])
  {
    if k == 0 {
      CutNothing(ms, d);
    } else {
      PassesCut(ms, d, all, k - 1);
      CutOneMore(ms, d, all[..k - 1], all[k - 1]);
      PassesAppend(ms, all[..k - 1], [all[k - 1]]);
      assert all[..k] == all[..k - 1] + [all[k - 1]];
      OnePassOnly(Passes(ms, all[..k - 1]), all[k - 1]);
    }
  }

  lemma OnePassOnly(ms: seq<Message>, header: string)
    ensures Passes(ms, [header]) == TrimHeader(ms, header)
  {
    assert [header][1..] == [];
  }

  /**
   * A prompt of the builder's shape loses from its dynamic block exactly the sections that the first
   * `k` prunable headers lead, where `k` is the least number that makes it fit, or all if none does.
   */
  lemma TrimIsLeastCut(ms: seq<Message>, d: nat, cap: int) returns (k: nat)
    requires BuilderShape(ms, d) && cap > 0
    ensures k <= |PRUNABLE| && Trim(ms, cap) == Cut(ms, d, PRUNABLE[..k])
    ensures k < |PRUNABLE| ==> Estimate(Trim(ms, cap)) <= cap
    ensures forall j | 0 <= j < k :: Estimate(Cut(ms, d, PRUNABLE[..j])) > cap
  {
    PrunableAreHeadings();
    k := TrimIsLeastPasses(ms, cap);
    PassesCut(ms, d, PRUNABLE, k);
    forall j | 0 <= j < k
      ensures Estimate(Cut(ms, d, PRUNABLE[..j])) > cap
    {
      PassesCut(ms, d, PRUNABLE, j);
    }
  }

  /**
   * On exit a prompt of the builder's shape fits the cap, or no paragraph of its dynamic block
   * starts with any prunable header.
   */
  lemma FitsOrNothingLeft(ms: seq<Message>, d: nat, cap: int)
    requires BuilderShape(ms, d) && cap > 0
    ensures BuilderShape(Trim(ms, cap), d)
    ensures Estimate(Trim(ms, cap)) <= cap
         || forall h | h in PRUNABLE :: HeaderFree(DynamicText(Trim(ms, cap), d), h)
  {
    var k := TrimIsLeastCut(ms, d, cap);
    if k == |PRUNABLE| {
      assert PRUNABLE[..k] == PRUNABLE;
      PrunableAreHeadings();
      CutIsFree(ms, d, PRUNABLE);
    }
  }

  lemma CutIsFree(ms: seq<Message>, d: nat, headers: seq<string>)
    requires BuilderShape(ms, d) && AreHeadings(headers)
    ensures forall h | h in headers :: HeaderFree(DynamicText(Cut(ms, d, headers), d), h)
  {
    AllCutIsFree(DynamicText(ms, d), headers);
  }

  lemma AllCutIsFree(text: string, headers: seq<string>)
    requires AreHeadings(headers)
    ensures forall h | h in headers :: HeaderFree(DropFromText(text, headers), h)
  {
    if text == [] {
      DropFromEmpty(headers);
    } else {
      DropFromTextMeans(text, headers);
    }
    forall h, p | h in headers && p in Paras(DropFromText(text, headers))
      ensures !T.StartsWith(p, h)
    {
      var k :| 0 <= k < |headers| && headers[k] == h;
      assert !LedBy(p, headers);
    }
  }

  // ---------------------------------------------------------------- several dynamic blocks

  /** No paragraph of any dynamic block starts with the header. */
  predicate AllFree(blocks: seq<Block>, header: string) {
    forall j | 0 <= j < |blocks| && Dynamic(blocks[j]) :: HeaderFree(blocks[j].text, header)
  }

  /** The blocks without the first dynamic one that mentions the header. */
  function WithoutFirst(blocks: seq<Block>, header: string): seq<Block> {
    if blocks == [] then []
    else if Dynamic(blocks[0]) && Contains(blocks[0].text, header) then blocks[1..]
    else [blocks[0]] + WithoutFirst(blocks[1..], header)
  }

  lemma AllFreeCons(b: Block, rest: seq<Block>, header: string)
    ensures AllFree([b] + rest, header) <==> (Dynamic(b) ==> HeaderFree(b.text, header)) && AllFree(rest, header)
  {
    var all := [b] + rest;
    assert all[0] == b && forall j | 0 <= j < |rest| :: all[j + 1] == rest[j];
  }

  /**
   * A pass clears its header from all dynamic blocks if and only if the header led no paragraph in
   * any of them but the first that mentions it: the pass stops there.
   */
  lemma {:induction false} PassClearsIff(blocks: seq<Block>, header: string)
    requires header != []
    ensures AllFree(TrimBlocks(blocks, header), header) <==> AllFree(WithoutFirst(blocks, header), header)
  {
    if blocks != [] {
      var b, rest := blocks[0], blocks[1..];
      if Dynamic(b) && Contains(b.text, header) {
        DropHeaderMeans(b.text, header);
        AllFreeCons(b.(text := DropFromText(b.text, [header])), rest, header);
      } else {
        PassClearsIff(rest, header);
        AllFreeCons(b, TrimBlocks(rest, header), header);
        AllFreeCons(b, WithoutFirst(rest, header), header);
      }
    }
  }

  /** Of two dynamic blocks with the same section a pass clears the first only. */
  lemma SecondBlockKept(b: Block, header: string)
    requires Dynamic(b) && header != [] && !HeaderFree(b.text, header)
    ensures !AllFree(TrimBlocks([b, b], header), header)
  {
    var p :| p in Paras(b.text) && T.StartsWith(p, header);
    ParagraphStart(b.text, p, header);
    PassClearsIff([b, b], header);
    assert [b, b][1..] == [b] && [b][0] == b;
  }

  // ---------------------------------------------------------------- prompts of any shape

  /** The blocks of the first multipart system message. */
  function Parts(ms: seq<Message>): seq<Block> {
    if ms == [] then [] else if SystemParts(ms[0]) then ms[0].content.blocks else Parts(ms[1..])
  }

  /** A text message before it starts with the header, so that the pass removes that message instead. */
  predicate TextBefore(ms: seq<Message>, header: string) {
    ms != [] && !SystemParts(ms[0]) && (TextStarts(ms[0], header) || TextBefore(ms[1..], header))
  }

  /** When a pass leaves no paragraph led by its header in the multipart system message. */
  predicate Clears(ms: seq<Message>, header: string) {
    AllFree(if TextBefore(ms, header) then Parts(ms) else WithoutFirst(Parts(ms), header), header)
  }

  lemma {:induction false} PartsAfter(ms: seq<Message>, header: string)
    ensures Parts(TrimHeader(ms, header)) == if TextBefore(ms, header) then Parts(ms) else TrimBlocks(Parts(ms), header)
  {
    if ms != [] {
      var m, rest := ms[0], ms[1..];
      if SystemParts(m) {
        var m' := m.(content := Multipart(TrimBlocks(m.content.blocks, header)));
        assert ([m'] + rest)[0] == m';
      } else if !TextStarts(m, header) {
        PartsAfter(rest, header);
        assert ([m] + TrimHeader(rest, header))[1..] == TrimHeader(rest, header);
      }
    }
  }

  lemma PassClears(ms: seq<Message>, header: string)
    requires header != []
    ensures AllFree(Parts(TrimHeader(ms, header)), header) <==> Clears(ms, header)
  {
    PartsAfter(ms, header);
    PassClearsIff(Parts(ms), header);
  }

  /** No paragraph starts with both headers. */
  ghost predicate Unrelated(a: string, b: string) {
    forall p :: !(T.StartsWith(p, a) && T.StartsWith(p, b))
  }

  lemma {:induction false} OtherSectionsStay(paras: seq<string>, other: string, p: string, skipping: bool)
    requires p in paras && IsHeading(p) && !T.StartsWith(p, other)
    ensures p in DropSections(paras, [other], skipping)
  {
    LedByOne(paras[0], other);
    if p != paras[0] {
      OtherSectionsStay(paras[1..], other, p,
        LedBy(paras[0], [other]) || (skipping && !IsHeading(paras[0])));
    }
  }

  lemma OtherTextStays(text: string, other: string, header: string)
    requires text != [] && IsHeading(header) && Unrelated(other, header)
    ensures HeaderFree(DropFromText(text, [other]), header) <==> HeaderFree(text, header)
  {
    var after, kept := DropFromText(text, [other]), DropSections(SplitParas(text), [other], false);
    DropHeaderMeans(text, other);
    if HeaderFree(text, header) {
      HeaderFreeKept(text, after, header);
    } else {
      var p :| p in Paras(text) && T.StartsWith(p, header);
      assert p[..2] == header[..2];
      OtherSectionsStay(SplitParas(text), other, p, false);
      DropKeepsSubseq(SplitParas(text), [other], false);
      ParasOfKept(text, kept);
      JoinEmpty(kept);
      assert p in Paras(after);
    }
  }

  lemma {:induction false} OtherPassKeeps(blocks: seq<Block>, other: string, header: string)
    requires other != [] && IsHeading(header) && Unrelated(other, header)
    ensures AllFree(TrimBlocks(blocks, other), header) <==> AllFree(blocks, header)
  {
    if blocks != [] {
      var b, rest := blocks[0], blocks[1..];
      assert blocks == [b] + rest;
      AllFreeCons(b, rest, header);
      if Dynamic(b) && Contains(b.text, other) {
        OtherTextStays(b.text, other, header);
        AllFreeCons(b.(text := DropFromText(b.text, [other])), rest, header);
      } else {
        OtherPassKeeps(rest, other, header);
        AllFreeCons(b, TrimBlocks(rest, other), header);
      }
    }
  }

  lemma {:induction false} OtherPassesKeep(ms: seq<Message>, others: seq<string>, header: string)
    requires IsHeading(header) && forall o | o in others :: o != [] && Unrelated(o, header)
    ensures AllFree(Parts(Passes(ms, others)), header) <==> AllFree(Parts(ms), header)
    decreases |others|
  {
    if others != [] {
      assert others[0] in others && forall o | o in others[1..] :: o in others;
      PartsAfter(ms, others[0]);
      OtherPassKeeps(Parts(ms), others[0], header);
      OtherPassesKeep(TrimHeader(ms, others[0]), others[1..], header);
    }
  }

  lemma SameAt(p: string, a: string, b: string, k: nat)
    requires T.StartsWith(p, a) && T.StartsWith(p, b) && k < |a| && k < |b|
    ensures a[k] == b[k]
  {
    assert p[..|a|][k] == p[k] && p[..|b|][k] == p[k];
  }

  /** The prunable headers differ at their fourth, eleventh or twelfth character. */
  lemma PrunableUnrelated(i: nat, j: nat)
    requires i < |PRUNABLE| && j < |PRUNABLE| && i != j
    ensures Unrelated(PRUNABLE[i], PRUNABLE[j])
  {
    forall p
      ensures !(T.StartsWith(p, PRUNABLE[i]) && T.StartsWith(p, PRUNABLE[j]))
    {
      if T.StartsWith(p, PRUNABLE[i]) && T.StartsWith(p, PRUNABLE[j]) {
        SameAt(p, PRUNABLE[i], PRUNABLE[j], 3);
        SameAt(p, PRUNABLE[i], PRUNABLE[j], 10);
        SameAt(p, PRUNABLE[i], PRUNABLE[j], 11);
      }
    }
  }

  lemma ClearedByOwnPass(ms: seq<Message>, all: seq<string>, k: nat)
    requires k < |all| && all[k] != [] && IsHeading(all[k])
    requires forall j | k < j < |all| :: all[j] != [] && Unrelated(all[j], all[k])
    ensures AllFree(Parts(Passes(ms, all)), all[k]) <==> Clears(Passes(ms, all[..k]), all[k])
  {
    var at, rest := Passes(ms, all[..k]), all[k + 1..];
    assert all == all[..k] + all[k..];
    PassesAppend(ms, all[..k], all[k..]);
    assert all[k..][0] == all[k] && all[k..][1..] == rest;
    PassClears(at, all[k]);
    OtherPassesKeep(TrimHeader(at, all[k]), rest, all[k]);
  }

  /**
   * For messages of any shape: when trimming ends over the cap, a prunable header is gone from the
   * multipart system message if and only if its own pass could clear it, that is, no text message
   * before took the pass and no dynamic block but the first that mentions the header had it.
   */
  lemma ClearedIff(ms: seq<Message>, cap: int, k: nat)
    requires cap > 0 && Estimate(Trim(ms, cap)) > cap && k < |PRUNABLE|
    ensures AllFree(Parts(Trim(ms, cap)), PRUNABLE[k]) <==> Clears(Passes(ms, PRUNABLE[..k]), PRUNABLE[k])
  {
    var passes := TrimIsLeastPasses(ms, cap);
    assert PRUNABLE[..|PRUNABLE|] == PRUNABLE;
    PrunableAreHeadings();
    forall j | k < j < |PRUNABLE|
      ensures PRUNABLE[j] != [] && Unrelated(PRUNABLE[j], PRUNABLE[k])
    {
      PrunableUnrelated(j, k);
    }
    ClearedByOwnPass(ms, PRUNABLE, k);
  }

  predicate Untouchable(m: Message, headers: seq<string>) {
    !SystemParts(m) && forall h | h in headers :: !TextStarts(m, h)
  }

  lemma {:induction false} TrimHeaderUntouched(ms: seq<Message>, header: string, headers: seq<string>)
    requires header in headers && forall m | m in ms :: Untouchable(m, headers)
    ensures TrimHeader(ms, header) == ms
  {
    if ms != [] {
      assert ms[0] in ms;
      TrimHeaderUntouched(ms[1..], header, headers);
    }
  }

  lemma {:induction false} TrimHeadersUntouched(ms: seq<Message>, todo: seq<string>, cap: int, headers: seq<string>)
    requires (forall h | h in todo :: h in headers) && forall m | m in ms :: Untouchable(m, headers)
    ensures TrimHeaders(ms, todo, cap) == ms
    decreases |todo|
  {
    if todo != [] {
      assert todo[0] in todo && forall h | h in todo[1..] :: h in todo;
      TrimHeaderUntouched(ms, todo[0], headers);
      TrimHeadersUntouched(ms, todo[1..], cap, headers);
    }
  }

  /**
   * The builder's other shape, one system text with everything in it, is never trimmed, whatever
   * sections it holds: a text counts only by what it starts with.
   */
  lemma SingleTextNeverTrimmed(ms: seq<Message>, cap: int)
    requires forall m | m in ms :: Untouchable(m, PRUNABLE)
    ensures Trim(ms, cap) == ms
  {
    TrimHeadersUntouched(ms, PRUNABLE, cap, PRUNABLE);
  }
}
