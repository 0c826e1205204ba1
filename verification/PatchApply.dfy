/** Applying the hunks of an update operation to a text. */
module PatchApply {
  import opened Options
  import opened Text
  import opened Matchers
  import opened PatchFormat

  /** `line.startswith(c)` for a one-character prefix. */
  predicate Marked(line: string, c: char) {
    line != [] && line[0] == c
  }

  function NormLine(line: string): string {
    if Marked(line, ' ') then line[1..] else line
  }

  /** What one line of a hunk contributes to the lines that the hunk expects. */
  function OldPart(line: string): seq<string> {
    if Marked(line, '+') then [] else if Marked(line, '-') then [line[1..]] else [NormLine(line)]
  }

  function NewPart(line: string): seq<string> {
    if Marked(line, '+') then [line[1..]] else if Marked(line, '-') then [] else [NormLine(line)]
  }

  /** The lines a hunk expects to find. */
  function OldSide(hunk: Hunk): seq<string> {
    if hunk == [] then [] else OldPart(hunk[0]) + OldSide(hunk[1..])
  }

  /** The lines a hunk leaves in their place. */
  function NewSide(hunk: Hunk): seq<string> {
    if hunk == [] then [] else NewPart(hunk[0]) + NewSide(hunk[1..])
  }

  function ApplyHunk(source: seq<string>, hunk: Hunk): Option<seq<string>> {
    match Locate(source, OldSide(hunk))
    case Nowhere => None
    case At(start, end) => Some(source[..start] + NewSide(hunk) + source[end..])
  }

  function ApplyHunks(source: seq<string>, hunks: seq<Hunk>): Option<seq<string>>
    decreases |hunks|
  {
    if hunks == [] then Some(source)
    else match ApplyHunk(source, hunks[0])
      case None => None
      case Some(next) => ApplyHunks(next, hunks[1..])
  }

  function Rejoin(source: seq<string>, terminated: bool): string {
    if terminated || source != [] then Join("\n", source) + "\n" else Join("\n", source)
  }

  /** The specification of `apply_update_to_text`; `None` is its failure to match a hunk. */
  function ApplyText(text: string, hunks: seq<Hunk>): Option<string> {
    match ApplyHunks(SplitLines(text), hunks)
    case None => None
    case Some(source) => Some(Rejoin(source, EndsWith(text, "\n")))
  }

  lemma SidesStep(hunk: Hunk, i: nat)
    requires i < |hunk|
    ensures OldSide(hunk[i..]) == OldPart(hunk[i]) + OldSide(hunk[i + 1..])
    ensures NewSide(hunk[i..]) == NewPart(hunk[i]) + NewSide(hunk[i + 1..])
  {
    assert hunk[i..][1..] == hunk[i + 1..];
  }

  method SplitHunk(hunk: Hunk) returns (oldSeq: seq<string>, newSeq: seq<string>)
    ensures oldSeq == OldSide(hunk) && newSeq == NewSide(hunk)
  {
    oldSeq, newSeq := [], [];
    for i := 0 to |hunk|
      invariant oldSeq + OldSide(hunk[i..]) == OldSide(hunk)
      invariant newSeq + NewSide(hunk[i..]) == NewSide(hunk)
    {
      var line := hunk[i];
      ghost var oldBefore, newBefore := oldSeq, newSeq;
      if Marked(line, '+') {
        newSeq := newSeq + [line[1..]];
      } else if Marked(line, '-') {
        oldSeq := oldSeq + [line[1..]];
      } else {
        var context := NormLine(line);
        oldSeq := oldSeq + [context];
        newSeq := newSeq + [context];
      }
      SidesStep(hunk, i);
      Appended(oldBefore, OldPart(line), OldSide(hunk[i + 1..]), oldSeq);
      Appended(newBefore, NewPart(line), NewSide(hunk[i + 1..]), newSeq);
    }
  }

  lemma Appended<T>(before: seq<T>, part: seq<T>, rest: seq<T>, after: seq<T>)
    requires after == before + part
    ensures after + rest == before + (part + rest)
  {
  }

  method LocateHunk(source: seq<string>, oldSeq: seq<string>) returns (found: Span)
    ensures found == Locate(source, oldSeq)
  {
    var idx := FindStrict(source, oldSeq);
    if idx >= 0 {
      return At(idx, idx + |oldSeq|);
    }
    found := FindSubseqBlankFlexible(source, oldSeq);
  }

  method ApplyUpdateToText(oldText: string, hunks: seq<Hunk>, path: string) returns (r: Result<string>)
    ensures r == match ApplyText(oldText, hunks) case None => Err(HunkMismatch(path)) case Some(text) => Ok(text)
  {
    var source := SplitLines(oldText);
    var hadTrailingNewline := EndsWith(oldText, "\n");
    for i := 0 to |hunks|
      invariant ApplyHunks(SplitLines(oldText), hunks) == ApplyHunks(source, hunks[i..])
    {
      assert hunks[i..][1..] == hunks[i + 1..];
      var oldSeq, newSeq := SplitHunk(hunks[i]);
      var found := LocateHunk(source, oldSeq);
      if found == Nowhere {
        return Err(HunkMismatch(path));
      }
      source := source[..found.start] + newSeq + source[found.end..];
    }
    var newText := Join("\n", source);
    if hadTrailingNewline || source != [] {
      newText := newText + "\n";
    }
    r := Ok(newText);
  }

  function TextFromAddLines(lines: seq<string>): (text: string)
    ensures AreLines(lines) ==> SplitLines(text) == lines
  {
    if lines == [] then ""
    else
      JoinTerminated(lines);
      assert AreLines(lines) ==> SplitLines(Unlines(lines)) == lines by {
        if AreLines(lines) {
          SplitUnlines(lines);
        }
      }
      Join("\n", lines) + "\n"
  }

  // ---------------------------------------------------------------- edit scripts

  datatype Edit = Keep(text: string) | Remove(text: string) | Insert(text: string)

  type Script = seq<Edit>

  function OldOf(script: Script): seq<string> {
    if script == [] then []
    else (if script[0].Insert? then [] else [script[0].text]) + OldOf(script[1..])
  }

  function NewOf(script: Script): seq<string> {
    if script == [] then []
    else (if script[0].Remove? then [] else [script[0].text]) + NewOf(script[1..])
  }

  function RenderEdit(e: Edit): string {
    match e
    case Keep(text) => [' '] + text
    case Remove(text) => ['-'] + text
    case Insert(text) => ['+'] + text
  }

  /** The hunk that writes an edit script in the patch format. */
  function Render(script: Script): Hunk {
    if script == [] then [] else [RenderEdit(script[0])] + Render(script[1..])
  }

  /** A stretch of lines the patch does not mention, followed by the edits of one hunk. */
  datatype Segment = Segment(gap: seq<string>, script: Script)

  function OldFile(segments: seq<Segment>, tail: seq<string>): seq<string> {
    if segments == [] then tail
    else segments[0].gap + OldOf(segments[0].script) + OldFile(segments[1..], tail)
  }

  function NewFile(segments: seq<Segment>, tail: seq<string>): seq<string> {
    if segments == [] then tail
    else segments[0].gap + NewOf(segments[0].script) + NewFile(segments[1..], tail)
  }

  function Hunks(segments: seq<Segment>): (hunks: seq<Hunk>)
    ensures |hunks| == |segments|
  {
    if segments == [] then [] else [Render(segments[0].script)] + Hunks(segments[1..])
  }

  predicate ScriptLines(script: Script) {
    forall e | e in script :: IsLine(e.text)
  }

  predicate SegmentLines(segments: seq<Segment>) {
    forall s | s in segments :: AreLines(s.gap) && s.script != [] && ScriptLines(s.script)
  }

  lemma {:induction false} RenderSides(script: Script)
    ensures OldSide(Render(script)) == OldOf(script)
    ensures NewSide(Render(script)) == NewOf(script)
  {
    if script != [] {
      RenderSides(script[1..]);
      var hunk := Render(script);
      assert hunk[0][1..] == script[0].text;
      assert hunk[1..] == Render(script[1..]);
    }
  }

  lemma RenderedLineOrdinary(e: Edit)
    requires IsLine(e.text)
    ensures OrdinaryLine(RenderEdit(e))
  {
    var line := RenderEdit(e);
    if StartsWith(line, "*** ") {
      PatchMarkers.Agrees(line, "*** ", 0);
    }
    if StartsWith(line, PatchMarkers.HUNK) {
      PatchMarkers.Agrees(line, PatchMarkers.HUNK, 0);
    }
  }

  lemma {:induction false} RenderOrdinary(script: Script)
    requires ScriptLines(script)
    ensures OrdinaryLines(Render(script)) && |Render(script)| == |script|
  {
    if script != [] {
      assert script[0] in script;
      RenderedLineOrdinary(script[0]);
      RenderOrdinary(script[1..]);
    }
  }

  lemma {:induction false} HunksPrintable(segments: seq<Segment>)
    requires SegmentLines(segments)
    ensures PrintableHunks(Hunks(segments))
  {
    if segments != [] {
      assert segments[0] in segments;
      RenderOrdinary(segments[0].script);
      HunksPrintable(segments[1..]);
    }
  }

  // ---------------------------------------------------------------- where a hunk lands

  /**
   * Every hunk is searched from the top of the file.  A segment is anchored when its old side
   * does not occur earlier in the file as the preceding hunks have left it.
   */
  ghost predicate Anchored(before: seq<string>, segments: seq<Segment>, tail: seq<string>)
    decreases |segments|
  {
    segments == [] ||
    (var Segment(gap, script) := segments[0];
     && (forall j | 0 <= j < |before| + |gap| ::
           !MatchesAt(before + OldFile(segments, tail), OldOf(script), j))
     && Anchored(before + gap + NewOf(script), segments[1..], tail))
  }

  /** Every hunk is put exactly where its segment stands. */
  ghost predicate LandsInPlace(before: seq<string>, segments: seq<Segment>, tail: seq<string>)
    decreases |segments|
  {
    segments == [] ||
    (var Segment(gap, script) := segments[0];
     var pos := |before| + |gap|;
     && Locate(before + OldFile(segments, tail), OldOf(script)) == At(pos, pos + |OldOf(script)|)
     && LandsInPlace(before + gap + NewOf(script), segments[1..], tail))
  }

  /** A hunk that matches exactly at `pos` is put there if and only if it matches nowhere before. */
  lemma LandsAtFirst(source: seq<string>, old_: seq<string>, pos: nat)
    requires MatchesAt(source, old_, pos)
    ensures Locate(source, old_) == At(pos, pos + |old_|) <==> forall j | 0 <= j < pos :: !MatchesAt(source, old_, j)
  {
    if forall j | 0 <= j < pos :: !MatchesAt(source, old_, j) {
      FirstMatchUnique(source, old_, pos, Find(source, old_));
    }
  }

  lemma Regroup<T>(a: seq<T>, b: seq<T>, c: seq<T>, d: seq<T>)
    ensures a + (b + c + d) == a + b + c + d
  {
  }

  lemma SegmentMatches(before: seq<string>, segments: seq<Segment>, tail: seq<string>)
    requires segments != []
    ensures MatchesAt(before + OldFile(segments, tail), OldOf(segments[0].script), |before| + |segments[0].gap|)
  {
    var Segment(gap, script) := segments[0];
    var rest := OldFile(segments[1..], tail);
    Regroup(before, gap, OldOf(script), rest);
  }

  /** A hunk that is put in place exchanges its old side for its new one there. */
  lemma ReplaceInPlace(pre: seq<string>, hunk: Hunk, post: seq<string>)
    requires Locate(pre + OldSide(hunk) + post, OldSide(hunk)) == At(|pre|, |pre| + |OldSide(hunk)|)
    ensures ApplyHunk(pre + OldSide(hunk) + post, hunk) == Some(pre + NewSide(hunk) + post)
  {
    var source := pre + OldSide(hunk) + post;
    assert source[..|pre|] == pre;
    assert source[|pre| + |OldSide(hunk)|..] == post;
  }

  lemma {:induction false} LandsIffAnchored(before: seq<string>, segments: seq<Segment>, tail: seq<string>)
    ensures LandsInPlace(before, segments, tail) <==> Anchored(before, segments, tail)
    decreases |segments|
  {
    if segments != [] {
      var Segment(gap, script) := segments[0];
      SegmentMatches(before, segments, tail);
      LandsAtFirst(before + OldFile(segments, tail), OldOf(script), |before| + |gap|);
      LandsIffAnchored(before + gap + NewOf(script), segments[1..], tail);
    }
  }

  lemma AnchoredStep(before: seq<string>, segments: seq<Segment>, tail: seq<string>)
    requires segments != [] && Anchored(before, segments, tail)
    ensures var Segment(gap, script) := segments[0];
      ApplyHunk(before + OldFile(segments, tail), Render(script))
        == Some(before + gap + NewOf(script) + OldFile(segments[1..], tail))
  {
    var Segment(gap, script) := segments[0];
    var rest := OldFile(segments[1..], tail);
    RenderSides(script);
    Regroup(before, gap, OldOf(script), rest);
    var pre, source := before + gap, before + OldFile(segments, tail);
    assert source == pre + OldSide(Render(script)) + rest;
    assert forall j | 0 <= j < |pre| :: !MatchesAt(source, OldOf(script), j);
    HunkInPlace(pre, Render(script), rest);
  }

  /** An anchored patch turns the old file into the new one. */
  lemma {:induction false} ApplyAnchored(before: seq<string>, segments: seq<Segment>, tail: seq<string>)
    requires Anchored(before, segments, tail)
    ensures ApplyHunks(before + OldFile(segments, tail), Hunks(segments)) == Some(before + NewFile(segments, tail))
    decreases |segments|
  {
    if segments != [] {
      var Segment(gap, script) := segments[0];
      var mid := before + gap + NewOf(script);
      AnchoredStep(before, segments, tail);
      ApplyAnchored(mid, segments[1..], tail);
      Regroup(before, gap, NewOf(script), NewFile(segments[1..], tail));
      ChainHunks(before + OldFile(segments, tail), Render(script), mid + OldFile(segments[1..], tail), Hunks(segments[1..]));
    }
  }

  lemma ChainHunks(source: seq<string>, hunk: Hunk, next: seq<string>, hunks: seq<Hunk>)
    requires ApplyHunk(source, hunk) == Some(next)
    ensures ApplyHunks(source, [hunk] + hunks) == ApplyHunks(next, hunks)
  {
    assert ([hunk] + hunks)[1..] == hunks;
  }

  /** The text that holds `lines` when the text before had or lacked a final newline. */
  function TextOf(lines: seq<string>, terminated: bool): string {
    if lines == [] && terminated then "\n" else Unlines(lines)
  }

  lemma RejoinIsTextOf(lines: seq<string>, terminated: bool)
    ensures Rejoin(lines, terminated) == TextOf(lines, terminated)
  {
    if lines != [] {
      JoinTerminated(lines);
    }
  }

  /**
   * End to end: a patch that writes out an edit script, hunk by hunk with any unmentioned lines
   * between, parses back to its hunks and turns any text with the old lines into the new one.
   * Deleting every line of a newline-terminated text leaves "\n".
   */
  lemma DiffThenPatch(path: string, oldText: string, segments: seq<Segment>, tail: seq<string>)
    requires ValidPath(path) && segments != [] && SegmentLines(segments)
    requires SplitLines(oldText) == OldFile(segments, tail)
    requires Anchored([], segments, tail)
    ensures Parse(Print([Update(path, Hunks(segments))])) == Ok([Update(path, Hunks(segments))])
    ensures ApplyText(oldText, Hunks(segments)) == Some(TextOf(NewFile(segments, tail), EndsWith(oldText, "\n")))
  {
    HunksPrintable(segments);
    PrintThenParse([Update(path, Hunks(segments))]);
    ApplyAnchored([], segments, tail);
    assert [] + OldFile(segments, tail) == OldFile(segments, tail);
    assert [] + NewFile(segments, tail) == NewFile(segments, tail);
    RejoinIsTextOf(NewFile(segments, tail), EndsWith(oldText, "\n"));
  }

  /**
   * One hunk that writes out a whole-file edit script needs no anchoring condition at all: it works
   * on every text.
   */
  lemma WholeFilePatch(path: string, oldText: string, script: Script)
    requires ValidPath(path) && script != [] && ScriptLines(script)
    requires SplitLines(oldText) == OldOf(script)
    ensures Parse(Print([Update(path, [Render(script)])])) == Ok([Update(path, [Render(script)])])
    ensures ApplyText(oldText, [Render(script)]) == Some(TextOf(NewOf(script), EndsWith(oldText, "\n")))
  {
    WholeFileSegment(script);
    DiffThenPatch(path, oldText, [Segment([], script)], []);
  }

  lemma WholeFileSegment(script: Script)
    ensures var segments := [Segment([], script)];
      && OldFile(segments, []) == OldOf(script)
      && NewFile(segments, []) == NewOf(script)
      && Hunks(segments) == [Render(script)]
      && Anchored([], segments, [])
  {
    var segments := [Segment([], script)];
    assert segments[1..] == [];
    assert [] + OldOf(script) + [] == OldOf(script);
    assert [] + NewOf(script) + [] == NewOf(script);
    assert Anchored([] + [] + NewOf(script), segments[1..], []);
  }

  function Rewrite(old_: seq<string>, new_: seq<string>): (script: Script)
    ensures OldOf(script) == old_ && NewOf(script) == new_
    ensures AreLines(old_) && AreLines(new_) ==> ScriptLines(script)
  {
    if old_ != [] then
      var rest := Rewrite(old_[1..], new_);
      assert ([Remove(old_[0])] + rest)[1..] == rest;
      assert old_[0] in old_ && forall l | l in old_[1..] :: l in old_;
      [Remove(old_[0])] + rest
    else if new_ != [] then
      var rest := Rewrite(old_, new_[1..]);
      assert ([Insert(new_[0])] + rest)[1..] == rest;
      assert new_[0] in new_ && forall l | l in new_[1..] :: l in new_;
      [Insert(new_[0])] + rest
    else []
  }

  /** A file of one blank line. */
  const BLANK: seq<string> := [""]

  /** The format is complete: some patch turns any list of lines into any other list. */
  lemma EveryEditExpressible(path: string, old_: seq<string>, new_: seq<string>)
    requires ValidPath(path) && AreLines(old_) && AreLines(new_)
    ensures exists patch, hunks ::
      Parse(patch) == Ok([Update(path, hunks)]) && ApplyText(Unlines(old_), hunks) == Some(TextOf(new_, old_ != []))
  {
    var script := Rewrite(old_, new_);
    SplitUnlines(old_);
    if old_ != [] {
      UnlinesTerminated(old_);
    }
    if script == [] {
      NothingExpressible(path);
    } else {
      WholeFilePatch(path, Unlines(old_), script);
      assert Parse(Print([Update(path, [Render(script)])])) == Ok([Update(path, [Render(script)])]);
    }
  }

  lemma BlankLineHunks(insert: Hunk, delete: Hunk)
    requires OldSide(insert) == [] && NewSide(insert) == BLANK
    requires OldSide(delete) == BLANK && NewSide(delete) == []
    ensures ApplyHunks([], [insert, delete]) == Some([])
  {
    InsertOnTop(insert, []);
    assert BLANK + [] == BLANK && [] + BLANK + [] == BLANK;
    HunkInPlace([], delete, []);
    ChainHunks([], insert, BLANK, [delete]);
    ChainHunks(BLANK, delete, [], []);
    assert [insert] + [delete] == [insert, delete] && [delete] + [] == [delete];
  }

  lemma OneEditSides(text: string)
    ensures var (insert, delete) := (Render([Insert(text)]), Render([Remove(text)]));
      && OldSide(insert) == [] && NewSide(insert) == [text]
      && OldSide(delete) == [text] && NewSide(delete) == []
  {
    RenderSides([Insert(text)]);
    RenderSides([Remove(text)]);
    assert [Insert(text)][1..] == [] && [Remove(text)][1..] == [];
  }

  /** Even the patch that leaves the empty text alone: insert a line, then delete it. */
  lemma NothingExpressible(path: string)
    requires ValidPath(path)
    ensures exists patch, hunks :: Parse(patch) == Ok([Update(path, hunks)]) && ApplyText([], hunks) == Some([])
  {
    var hunks := [Render([Insert([])]), Render([Remove([])])];
    OneEditSides([]);
    BlankLineHunks(hunks[0], hunks[1]);
    assert ApplyText([], hunks) == Some([]);
    RenderOrdinary([Insert([])]);
    RenderOrdinary([Remove([])]);
    PrintThenParse([Update(path, hunks)]);
  }

  /** Without anchoring the hunk is misplaced: deleting the second "a" deletes the first. */
  lemma UnanchoredHunkMisplaced()
    ensures var segments := [Segment(["a", "b"], [Remove("a")])];
      && !Anchored([], segments, [])
      && OldFile(segments, []) == ["a", "b", "a"]
      && NewFile(segments, []) == ["a", "b"]
      && ApplyHunks(OldFile(segments, []), Hunks(segments)) == Some(["b", "a"])
  {
    var segments := [Segment(["a", "b"], [Remove("a")])];
    var source := ["a", "b", "a"];
    assert OldOf([Remove("a")]) == ["a"] && NewOf([Remove("a")]) == [];
    assert OldFile(segments, []) == source && NewFile(segments, []) == ["a", "b"];
    assert MatchesAt([] + source, ["a"], 0) by { assert source[0..1] == ["a"]; }
    assert MatchesAt(source, ["a"], 0) by { assert source[0..1] == ["a"]; }
    LandsAtFirst(source, ["a"], 0);
    RenderSides([Remove("a")]);
    assert Hunks(segments) == [Render([Remove("a")])];
    assert source == [] + ["a"] + ["b", "a"];
    ReplaceInPlace([], Render([Remove("a")]), ["b", "a"]);
    assert [] + [] + ["b", "a"] == ["b", "a"];
    assert ApplyHunks(["b", "a"], []) == Some(["b", "a"]);
  }

  // ---------------------------------------------------------------- undoing a patch

  function ReverseEdit(e: Edit): Edit {
    match e
    case Keep(text) => Keep(text)
    case Remove(text) => Insert(text)
    case Insert(text) => Remove(text)
  }

  function ReverseScript(script: Script): (r: Script)
    ensures OldOf(r) == NewOf(script) && NewOf(r) == OldOf(script)
  {
    if script == [] then []
    else
      var rest := ReverseScript(script[1..]);
      assert ([ReverseEdit(script[0])] + rest)[1..] == rest;
      [ReverseEdit(script[0])] + rest
  }

  function ReverseSegments(segments: seq<Segment>): (r: seq<Segment>)
    ensures |r| == |segments|
  {
    if segments == [] then []
    else [Segment(segments[0].gap, ReverseScript(segments[0].script))] + ReverseSegments(segments[1..])
  }

  lemma {:induction false} ReverseSegmentsSwap(segments: seq<Segment>, tail: seq<string>)
    ensures OldFile(ReverseSegments(segments), tail) == NewFile(segments, tail)
    ensures NewFile(ReverseSegments(segments), tail) == OldFile(segments, tail)
  {
    if segments != [] {
      var reversed := ReverseSegments(segments);
      assert reversed[1..] == ReverseSegments(segments[1..]);
      ReverseSegmentsSwap(segments[1..], tail);
    }
  }

  /** A patch followed by its reversal restores the text when both are anchored. */
  lemma PatchThenReverse(segments: seq<Segment>, tail: seq<string>)
    requires OldFile(segments, tail) != [] && NewFile(segments, tail) != []
    requires AreLines(OldFile(segments, tail)) && AreLines(NewFile(segments, tail))
    requires Anchored([], segments, tail) && Anchored([], ReverseSegments(segments), tail)
    ensures var text := Unlines(OldFile(segments, tail));
      var patched := ApplyText(text, Hunks(segments));
      patched.Some? && ApplyText(patched.value, Hunks(ReverseSegments(segments))) == Some(text)
  {
    var reversed := ReverseSegments(segments);
    var before, after := OldFile(segments, tail), NewFile(segments, tail);
    ReverseSegmentsSwap(segments, tail);
    ApplyAnchored([], segments, tail);
    ApplyAnchored([], reversed, tail);
    assert [] + before == before && [] + after == after;
    SplitUnlines(before);
    SplitUnlines(after);
    RejoinIsTextOf(before, true);
    RejoinIsTextOf(after, true);
    UnlinesTerminated(before);
    UnlinesTerminated(after);
  }

  function ReverseLine(line: string): string {
    if Marked(line, '+') then ['-'] + line[1..]
    else if Marked(line, '-') then ['+'] + line[1..]
    else line
  }

  /** Any hunk with its `+` and `-` lines exchanged. */
  function ReverseHunk(hunk: Hunk): (r: Hunk)
    ensures OldSide(r) == NewSide(hunk) && NewSide(r) == OldSide(hunk)
  {
    if hunk == [] then []
    else
      var rest := ReverseHunk(hunk[1..]);
      var line := ReverseLine(hunk[0]);
      assert ([line] + rest)[1..] == rest;
      [line] + rest
  }

  /** The reversal of a hunk lands where the hunk did if and only if its new side does not occur earlier. */
  lemma ReverseLandsInPlace(pre: seq<string>, hunk: Hunk, post: seq<string>)
    ensures var patched := pre + NewSide(hunk) + post;
      (Locate(patched, NewSide(hunk)) == At(|pre|, |pre| + |NewSide(hunk)|)) <==>
      (forall j | 0 <= j < |pre| :: !MatchesAt(patched, NewSide(hunk), j))
  {
    var patched := pre + NewSide(hunk) + post;
    assert patched[|pre|..|pre| + |NewSide(hunk)|] == NewSide(hunk);
    LandsAtFirst(patched, NewSide(hunk), |pre|);
  }

  /** A hunk whose old side does not occur earlier is put in place. */
  lemma HunkInPlace(pre: seq<string>, hunk: Hunk, post: seq<string>)
    requires forall j | 0 <= j < |pre| :: !MatchesAt(pre + OldSide(hunk) + post, OldSide(hunk), j)
    ensures ApplyHunk(pre + OldSide(hunk) + post, hunk) == Some(pre + NewSide(hunk) + post)
  {
    var source := pre + OldSide(hunk) + post;
    assert source[|pre|..|pre| + |OldSide(hunk)|] == OldSide(hunk);
    LandsAtFirst(source, OldSide(hunk), |pre|);
    ReplaceInPlace(pre, hunk, post);
  }

  /** A hunk that matched exactly is undone by its reversal when the reversal lands in place. */
  lemma HunkThenReverse(pre: seq<string>, hunk: Hunk, post: seq<string>)
    requires forall j | 0 <= j < |pre| :: !MatchesAt(pre + OldSide(hunk) + post, OldSide(hunk), j)
    requires forall j | 0 <= j < |pre| :: !MatchesAt(pre + NewSide(hunk) + post, NewSide(hunk), j)
    ensures var source := pre + OldSide(hunk) + post;
      && ApplyHunk(source, hunk).Some?
      && ApplyHunk(ApplyHunk(source, hunk).value, ReverseHunk(hunk)) == Some(source)
  {
    HunkInPlace(pre, hunk, post);
    HunkInPlace(pre, ReverseHunk(hunk), post);
  }

  /** A hunk without context or deletions always inserts at the top of the file. */
  lemma InsertOnTop(hunk: Hunk, source: seq<string>)
    requires OldSide(hunk) == []
    ensures ApplyHunk(source, hunk) == Some(NewSide(hunk) + source)
  {
    assert [] + OldSide(hunk) + source == source && [] + NewSide(hunk) + source == NewSide(hunk) + source;
    HunkInPlace([], hunk, source);
  }

  // ---------------------------------------------------------------- several hunks, one at a time

  predicate LineHunks(hunks: seq<Hunk>) {
    forall h | h in hunks :: AreLines(h)
  }

  lemma {:induction false} NewSideLines(hunk: Hunk)
    requires AreLines(hunk)
    ensures AreLines(NewSide(hunk))
  {
    if hunk != [] {
      assert hunk[0] in hunk;
      assert forall c | hunk[0] != [] && c in hunk[0][1..] :: c in hunk[0];
      NewSideLines(hunk[1..]);
    }
  }

  lemma {:induction false} ApplyHunksLines(source: seq<string>, hunks: seq<Hunk>)
    requires AreLines(source) && LineHunks(hunks)
    requires ApplyHunks(source, hunks).Some?
    ensures AreLines(ApplyHunks(source, hunks).value)
    decreases |hunks|
  {
    if hunks != [] {
      assert hunks[0] in hunks;
      NewSideLines(hunks[0]);
      ApplyHunksLines(ApplyHunk(source, hunks[0]).value, hunks[1..]);
    }
  }

  lemma {:induction false} ApplyHunksFold(source: seq<string>, first: seq<Hunk>, second: seq<Hunk>)
    ensures ApplyHunks(source, first + second) == match ApplyHunks(source, first)
      case None => None
      case Some(mid) => ApplyHunks(mid, second)
    decreases |first|
  {
    if first == [] {
      assert first + second == second;
    } else {
      assert (first + second)[1..] == first[1..] + second;
      if ApplyHunk(source, first[0]).Some? {
        ApplyHunksFold(ApplyHunk(source, first[0]).value, first[1..], second);
      }
    }
  }

  lemma RejoinSplits(lines: seq<string>, terminated: bool)
    requires AreLines(lines) && (lines != [] || !terminated)
    ensures SplitLines(Rejoin(lines, terminated)) == lines
    ensures EndsWith(Rejoin(lines, terminated), "\n") <==> lines != []
  {
    RejoinIsTextOf(lines, terminated);
    SplitUnlines(lines);
    if lines != [] {
      UnlinesTerminated(lines);
    }
  }

  /**
   * Applying hunks in two rounds, each from text to text, equals applying them in one, provided
   * the text between is not empty.  It fails exactly when the original text lacked its final
   * newline and all lines are gone at the end.
   */
  lemma TwoRounds(text: string, first: seq<Hunk>, second: seq<Hunk>, mid: seq<string>)
    requires LineHunks(first)
    requires ApplyHunks(SplitLines(text), first) == Some(mid)
    ensures mid != [] ==>
      ((ApplyText(text, first + second) == ApplyText(ApplyText(text, first).value, second)) <==>
       (EndsWith(text, "\n") || ApplyHunks(mid, second) != Some([])))
    ensures mid == [] && !EndsWith(text, "\n") ==>
      ApplyText(text, first + second) == ApplyText(ApplyText(text, first).value, second)
  {
    ApplyHunksFold(SplitLines(text), first, second);
    ApplyHunksLines(SplitLines(text), first);
    if mid != [] || !EndsWith(text, "\n") {
      RejoinSplits(mid, EndsWith(text, "\n"));
    }
  }

  // ---------------------------------------------------------------- through the empty file

  lemma NothingInEmpty(needle: seq<string>)
    requires needle != []
    ensures Locate([], needle) == Nowhere
  {
    assert RStripAll([]) == [];
    assert forall i :: !MatchesAt([], needle, i) && !MatchesAt([], RStripAll(needle), i);
  }

  /** In a file of one blank line only a blank line is found. */
  lemma BlankLineIff(needle: seq<string>)
    requires needle != []
    ensures Locate(BLANK, needle) != Nowhere <==> |needle| == 1 && IsBlank(needle[0])
    ensures Locate(BLANK, needle) != Nowhere ==> Locate(BLANK, needle) == At(0, 1)
  {
    var hay, ned := RStripAll(BLANK), RStripAll(needle);
    assert hay == BLANK;
    FirstMatchInBlank(needle);
    FirstMatchInBlank(ned);
    assert SkipBlanks(hay, 0) == 1;
    assert FlexEnd(hay, ned, 1, 1) == if |ned| == 1 then 1 else -1;
    assert FlexFrom(hay, ned, 1) == Nowhere;
  }

  lemma FirstMatchInBlank(needle: seq<string>)
    requires needle != []
    ensures Find(BLANK, needle) == if needle == BLANK then 0 else -1
  {
    var idx := if needle == BLANK then 0 else -1;
    forall i
      ensures MatchesAt(BLANK, needle, i) <==> i == 0 && needle == BLANK
    {
      if MatchesAt(BLANK, needle, i) {
        assert BLANK[i..i + |needle|] == BLANK;
      }
    }
    FirstMatchUnique(BLANK, needle, idx, Find(BLANK, needle));
  }

  lemma BlankText()
    ensures Unlines(BLANK) == "\n" && TextOf([], true) == "\n" && SplitLines("\n") == BLANK
  {
    assert BLANK[1..] == [];
    SplitUnlines(BLANK);
  }

  lemma {:induction false} InsertionsKept(hunk: Hunk)
    requires OldSide(hunk) == []
    ensures |NewSide(hunk)| == |hunk|
  {
    if hunk != [] {
      InsertionsKept(hunk[1..]);
    }
  }

  lemma {:induction false} UnlinesSnoc(lines: seq<string>, line: string)
    ensures Unlines(lines + [line]) == Unlines(lines) + line + "\n"
  {
    if lines == [] {
      assert [line][1..] == [] && [] + [line] == [line];
    } else {
      UnlinesSnoc(lines[1..], line);
      assert (lines + [line])[1..] == lines[1..] + [line];
    }
  }

  /** One hunk on the text that emptying leaves: a single newline, that is, one blank line. */
  lemma HunkOnBlank(hunk: Hunk)
    requires hunk != []
    ensures var old_ := OldSide(hunk);
      ApplyText("\n", [hunk]) ==
        if old_ == [] then Some(Unlines(NewSide(hunk) + BLANK))
        else if |old_| == 1 && IsBlank(old_[0]) then Some(TextOf(NewSide(hunk), true))
        else None
  {
    var old_, new_ := OldSide(hunk), NewSide(hunk);
    BlankText();
    if old_ == [] {
      InsertOnTop(hunk, BLANK);
      RejoinIsTextOf(new_ + BLANK, true);
      ChainHunks(BLANK, hunk, new_ + BLANK, []);
      assert [hunk] + [] == [hunk];
    } else {
      BlankLineIff(old_);
      if |old_| == 1 && IsBlank(old_[0]) {
        assert ApplyHunk(BLANK, hunk) == Some(new_) by { assert [] + new_ + [] == new_; }
        RejoinIsTextOf(new_, true);
        ChainHunks(BLANK, hunk, new_, []);
        assert [hunk] + [] == [hunk];
      }
    }
  }

  /** The same hunk on the empty file, within one call. */
  lemma HunkOnEmpty(hunk: Hunk)
    requires hunk != []
    ensures ApplyHunks([], [hunk]) == if OldSide(hunk) == [] then Some(NewSide(hunk)) else None
  {
    if OldSide(hunk) == [] {
      InsertOnTop(hunk, []);
      assert NewSide(hunk) + [] == NewSide(hunk);
      ChainHunks([], hunk, NewSide(hunk), []);
      assert [hunk] + [] == [hunk];
    } else {
      NothingInEmpty(OldSide(hunk));
    }
  }

  /**
   * The remaining case: the first round empties a newline-terminated text and so leaves one blank
   * line for the next.  A second round of one hunk then equals the single round if and only if the
   * hunk fails in both: unless it only inserts or expects just a blank line.
   */
  lemma TwoRoundsThroughEmpty(text: string, first: seq<Hunk>, hunk: Hunk)
    requires EndsWith(text, "\n") && ApplyHunks(SplitLines(text), first) == Some([]) && hunk != []
    ensures ApplyText(text, first) == Some("\n")
    ensures ApplyText(text, first + [hunk]) == ApplyText("\n", [hunk]) <==>
      OldSide(hunk) != [] && !(|OldSide(hunk)| == 1 && IsBlank(OldSide(hunk)[0]))
    ensures ApplyText(text, first + [hunk]) == ApplyText("\n", [hunk]) ==> ApplyText("\n", [hunk]) == None
  {
    var new_ := NewSide(hunk);
    ApplyHunksFold(SplitLines(text), first, [hunk]);
    RejoinIsTextOf([], true);
    HunkOnBlank(hunk);
    HunkOnEmpty(hunk);
    if OldSide(hunk) == [] {
      InsertionsKept(hunk);
      RejoinIsTextOf(new_, true);
      UnlinesSnoc(new_, []);
    }
  }
}
