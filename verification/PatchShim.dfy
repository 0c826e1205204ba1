/** The stand-alone `apply_patch` script: the same format, two matchers, files rewritten as it reads. */
module PatchShim {
  import opened Options
  import opened Text
  import opened Matchers
  import opened PatchMarkers
  import opened PatchFormat
  import opened PatchApply

  type Files = map<string, string>

  /** The files on disk and the script's exit code. */
  datatype Outcome = Outcome(files: Files, code: int)

  const OK := 0
  const NOT_FOUND := 2
  const NO_MATCH := 3
  const UNKNOWN := 4

  // ---------------------------------------------------------------- specification

  function Splice(source: seq<string>, idx: int, size: nat, new_: seq<string>): Option<seq<string>>
    requires idx < 0 || idx + size <= |source|
  {
    if idx < 0 then None else Some(source[..idx] + new_ + source[idx + size..])
  }

  function ShimHunk(source: seq<string>, hunk: Hunk): Option<seq<string>> {
    var (old_, new_) := (OldSide(hunk), NewSide(hunk));
    Splice(source, StrictIndex(source, old_), |old_|, new_)
  }

  function ShimHunks(source: seq<string>, hunks: seq<Hunk>): Option<seq<string>>
    decreases |hunks|
  {
    if hunks == [] then Some(source)
    else match ShimHunk(source, hunks[0])
      case None => None
      case Some(next) => ShimHunks(next, hunks[1..])
  }

  function ShimText(text: string, hunks: seq<Hunk>): Option<string> {
    match ShimHunks(SplitLines(text), hunks)
    case None => None
    case Some(source) => Some(Join("\n", source) + "\n")
  }

  function Execute(files: Files, op: Operation): Outcome {
    match op
    case Update(path, hunks) =>
      if path !in files then Outcome(files, NOT_FOUND)
      else (match ShimText(files[path], hunks)
            case None => Outcome(files, NO_MATCH)
            case Some(text) => Outcome(files[path := text], OK))
    case Add(path, content) => Outcome(files[path := Join("\n", content) + "\n"], OK)
    case Delete(path) => Outcome(files - {path}, OK)
  }

  /** Runs operations in order until one of them fails. */
  function ExecuteAll(files: Files, ops: seq<Operation>): Outcome
    decreases |ops|
  {
    if ops == [] then Outcome(files, OK)
    else
      var r := Execute(files, ops[0]);
      if r.code != OK then r else ExecuteAll(r.files, ops[1..])
  }

  /** The specification of the script's main loop: reading and executing alternate. */
  function Run(files: Files, lines: seq<string>): Outcome
    decreases |lines|
  {
    if lines == [] then Outcome(files, OK)
    else
      var kind := KindOf(lines[0]);
      if OpensOperation(kind) then
        var (op, left) := ReadRaw(lines[0], lines[1..]);
        var r := Execute(files, op);
        if r.code != OK then r else Run(r.files, left)
      else if kind.UnknownLine? then Outcome(files, UNKNOWN)
      else Run(files, lines[1..])
  }

  // ---------------------------------------------------------------- the script

  method RewriteHunk(source: seq<string>, hunk: Hunk) returns (r: Option<seq<string>>)
    ensures r == ShimHunk(source, hunk)
  {
    var oldSeq, newSeq := SplitHunk(hunk);
    var idx := FindStrict(source, oldSeq);
    r := Splice(source, idx, |oldSeq|, newSeq);
  }

  method RewriteText(text: string, hunks: seq<Hunk>) returns (r: Option<string>)
    ensures r == ShimText(text, hunks)
  {
    var source := SplitLines(text);
    for i := 0 to |hunks|
      invariant ShimHunks(SplitLines(text), hunks) == ShimHunks(source, hunks[i..])
    {
      assert hunks[i..][1..] == hunks[i + 1..];
      var next := RewriteHunk(source, hunks[i]);
      if next == None {
        return None;
      }
      source := next.value;
    }
    r := Some(Join("\n", source) + "\n");
  }

  class Shim {
    var files: Files

    constructor (files: Files)
      ensures this.files == files
    {
      this.files := files;
    }

    method ApplyUpdateFile(path: string, hunks: seq<Hunk>) returns (code: int)
      modifies this
      ensures Outcome(files, code) == Execute(old(files), Update(path, hunks))
    {
      if path !in files {
        return NOT_FOUND;
      }
      var text := RewriteText(files[path], hunks);
      if text == None {
        return NO_MATCH;
      }
      files := files[path := text.value];
      code := OK;
    }

    method ApplyAddFile(path: string, content: seq<string>)
      modifies this
      ensures files == old(files)[path := Join("\n", content) + "\n"]
    {
      files := files[path := Join("\n", content) + "\n"];
    }

    method ApplyDeleteFile(path: string)
      modifies this
      ensures files == old(files) - {path}
    {
      if path in files {
        files := files - {path};
      } else {
        assert files - {path} == files;
      }
    }

    method Perform(op: Operation) returns (code: int)
      modifies this
      ensures Outcome(files, code) == Execute(old(files), op)
    {
      code := OK;
      match op
      case Update(path, hunks) => code := ApplyUpdateFile(path, hunks);
      case Add(path, content) => ApplyAddFile(path, content);
      case Delete(path) => ApplyDeleteFile(path);
    }

    /** The script's `main`. */
    method ApplyPatch(stdin: string) returns (code: int)
      modifies this
      ensures Outcome(files, code) == Run(old(files), SplitLines(stdin))
    {
      var lines := SplitLines(stdin);
      var i := 0;
      while i < |lines|
        invariant 0 <= i <= |lines|
        invariant Run(old(files), lines) == Run(files, lines[i..])
        decreases |lines| - i
      {
        var kind := KindOf(lines[i]);
        assert lines[i..][1..] == lines[i + 1..];
        if OpensOperation(kind) {
          var op;
          op, i := ReadOperation(lines, i);
          code := Perform(op);
          if code != OK {
            return;
          }
        } else if kind.UnknownLine? {
          return UNKNOWN;
        } else {
          i := i + 1;
        }
      }
      code := OK;
    }
  }

  // ---------------------------------------------------------------- the two engines agree

  lemma {:induction false} RunExecutesParsed
    (files: Files, lines: seq<string>, sawBegin: bool, sawEnd: bool, done: seq<Operation>)
    requires ParseLines(lines, sawBegin, sawEnd, done).Ok?
    ensures done <= ParseLines(lines, sawBegin, sawEnd, done).value
    ensures Run(files, lines) == ExecuteAll(files, ParseLines(lines, sawBegin, sawEnd, done).value[|done|..])
    decreases |lines|
  {
    var ops := ParseLines(lines, sawBegin, sawEnd, done).value;
    if lines != [] {
      var line, rest, kind := lines[0], lines[1..], KindOf(lines[0]);
      if OpensOperation(kind) {
        var (op, left) := ReadRaw(line, rest);
        RunExecutesParsed(Execute(files, op).files, left, sawBegin, sawEnd, done + [op]);
        assert ops[|done|] == op;
        assert ops[|done|..][1..] == ops[|done + [op]|..];
      } else {
        RunExecutesParsed(files, rest, sawBegin || kind.BeginLine?, sawEnd || kind.EndLine?, done);
      }
    }
  }

  /**
   * On every patch the checking parser accepts, the script's interleaved reading and executing has
   * the effect of executing the parsed operations in order up to the first failure.
   */
  lemma ShimRunsParsedPatch(files: Files, patch: string)
    requires Parse(patch).Ok?
    ensures Run(files, SplitLines(patch)) == ExecuteAll(files, Parse(patch).value)
  {
    RunExecutesParsed(files, SplitLines(patch), false, false, []);
  }

  /** A hunk the script applies is applied with the same result by the in-memory engine. */
  lemma {:induction false} EngineExtendsShim(source: seq<string>, hunks: seq<Hunk>)
    requires ShimHunks(source, hunks).Some?
    ensures ApplyHunks(source, hunks) == ShimHunks(source, hunks)
    decreases |hunks|
  {
    if hunks != [] {
      OneHunkExtends(source, hunks[0]);
      EngineExtendsShim(ShimHunk(source, hunks[0]).value, hunks[1..]);
    }
  }

  lemma OneHunkExtends(source: seq<string>, hunk: Hunk)
    requires ShimHunk(source, hunk).Some?
    ensures ApplyHunk(source, hunk) == ShimHunk(source, hunk)
  {
    var old_ := OldSide(hunk);
    var idx := StrictIndex(source, old_);
    assert Locate(source, old_) == At(idx, idx + |old_|);
  }

  /**
   * The written files agree too, unless all lines are gone from a text that had no final newline:
   * there the script writes a newline and the in-memory engine nothing.
   */
  lemma TextsAgree(text: string, hunks: seq<Hunk>)
    requires ShimHunks(SplitLines(text), hunks).Some?
    ensures (ApplyText(text, hunks) == ShimText(text, hunks)) <==>
            (EndsWith(text, "\n") || ShimHunks(SplitLines(text), hunks) != Some([]))
  {
    EngineExtendsShim(SplitLines(text), hunks);
  }

  /** Added files agree exactly when there is some content. */
  lemma AddedFilesAgree(path: string, content: seq<string>)
    ensures (Execute(map[], Add(path, content)).files == map[path := TextFromAddLines(content)]) <==> content != []
  {
    var files := Execute(map[], Add(path, content)).files;
    assert files[path] == Join("\n", content) + "\n";
    if content == [] {
      assert map[path := TextFromAddLines(content)][path] == "";
    }
  }

  /** One operation applied with the in-memory engine's helpers; `None` where a file or a hunk is not found. */
  function EngineExecute(files: Files, op: Operation): Option<Files> {
    match op
    case Update(path, hunks) =>
      if path !in files || ApplyText(files[path], hunks) == None then None
      else Some(files[path := ApplyText(files[path], hunks).value])
    case Add(path, content) => Some(files[path := TextFromAddLines(content)])
    case Delete(path) => Some(files - {path})
  }

  function EngineExecuteAll(files: Files, ops: seq<Operation>): Option<Files> {
    if ops == [] then Some(files)
    else match EngineExecuteAll(files, ops[..|ops| - 1])
      case None => None
      case Some(mid) => EngineExecute(mid, ops[|ops| - 1])
  }

  /** An added file has a line; an updated one was newline-terminated or has lines left. */
  predicate Agrees(files: Files, op: Operation) {
    match op
    case Update(path, hunks) =>
      path in files && (EndsWith(files[path], "\n") || ShimHunks(SplitLines(files[path]), hunks) != Some([]))
    case Add(_, content) => content != []
    case Delete(_) => true
  }

  lemma WrittenAlikeIff(files: Files, path: string, a: string, b: string)
    ensures files[path := a] == files[path := b] <==> a == b
  {
    assert files[path := a][path] == a && files[path := b][path] == b;
  }

  lemma OperationAgreesIff(files: Files, op: Operation)
    requires Execute(files, op).code == OK
    ensures EngineExecute(files, op) == Some(Execute(files, op).files) <==> Agrees(files, op)
  {
    match op
    case Update(path, hunks) =>
      EngineExtendsShim(SplitLines(files[path]), hunks);
      TextsAgree(files[path], hunks);
      WrittenAlikeIff(files, path, ApplyText(files[path], hunks).value, ShimText(files[path], hunks).value);
    case Add(path, content) =>
      AddedTextsAgree(content);
      WrittenAlikeIff(files, path, TextFromAddLines(content), Join("\n", content) + "\n");
    case Delete(_) =>
  }

  lemma AddedTextsAgree(content: seq<string>)
    ensures TextFromAddLines(content) == Join("\n", content) + "\n" <==> content != []
  {
  }

  lemma {:induction false} ExecuteAllSnoc(files: Files, ops: seq<Operation>, op: Operation)
    ensures var before := ExecuteAll(files, ops);
      ExecuteAll(files, ops + [op]) == if before.code != OK then before else Execute(before.files, op)
    decreases |ops|
  {
    if ops == [] {
      assert [] + [op] == [op] && [op][1..] == [];
    } else {
      assert (ops + [op])[1..] == ops[1..] + [op];
      if Execute(files, ops[0]).code == OK {
        ExecuteAllSnoc(Execute(files, ops[0]).files, ops[1..], op);
      }
    }
  }

  /** The script's files after the first `k` operations. */
  function FilesAfter(files: Files, ops: seq<Operation>, k: nat): Files
    requires k <= |ops|
  {
    ExecuteAll(files, ops[..k]).files
  }

  lemma {:induction false} PrefixSucceeds(files: Files, ops: seq<Operation>, k: nat)
    requires ExecuteAll(files, ops).code == OK && k <= |ops|
    ensures ExecuteAll(files, ops[..k]).code == OK
    ensures k < |ops| ==> Execute(FilesAfter(files, ops, k), ops[k]) == ExecuteAll(files, ops[..k + 1])
    decreases |ops| - k
  {
    if k == |ops| {
      assert ops[..k] == ops;
    } else {
      PrefixSucceeds(files, ops, k + 1);
      assert ops[..k + 1] == ops[..k] + [ops[k]];
      ExecuteAllSnoc(files, ops[..k], ops[k]);
    }
  }

  /** After the first `k` operations both engines have the same files. */
  predicate SameAfter(files: Files, ops: seq<Operation>, k: nat)
    requires k <= |ops|
  {
    EngineExecuteAll(files, ops[..k]) == Some(FilesAfter(files, ops, k))
  }

  lemma NextSameIff(files: Files, ops: seq<Operation>, k: nat)
    requires ExecuteAll(files, ops).code == OK && k < |ops| && SameAfter(files, ops, k)
    ensures SameAfter(files, ops, k + 1) <==> Agrees(FilesAfter(files, ops, k), ops[k])
  {
    PrefixSucceeds(files, ops, k);
    PrefixSucceeds(files, ops, k + 1);
    OperationAgreesIff(FilesAfter(files, ops, k), ops[k]);
    assert ops[..k + 1][..k] == ops[..k] && ops[..k + 1][k] == ops[k];
  }

  predicate AllSame(files: Files, ops: seq<Operation>, n: nat)
    requires n <= |ops|
  {
    forall k | 0 <= k <= n :: SameAfter(files, ops, k)
  }

  predicate AllAgree(files: Files, ops: seq<Operation>, n: nat)
    requires n <= |ops|
  {
    forall k | 0 <= k < n :: Agrees(FilesAfter(files, ops, k), ops[k])
  }

  lemma SameAtStart(files: Files, ops: seq<Operation>)
    ensures SameAfter(files, ops, 0)
  {
    assert ops[..0] == [];
  }

  lemma {:induction false} SameUpTo(files: Files, ops: seq<Operation>, n: nat)
    requires ExecuteAll(files, ops).code == OK && n <= |ops|
    ensures AllSame(files, ops, n) <==> AllAgree(files, ops, n)
  {
    if n == 0 {
      SameAtStart(files, ops);
    } else {
      SameUpTo(files, ops, n - 1);
      if AllSame(files, ops, n - 1) {
        NextSame(files, ops, n - 1);
      }
    }
  }

  lemma NextSame(files: Files, ops: seq<Operation>, k: nat)
    requires ExecuteAll(files, ops).code == OK && k < |ops| && AllSame(files, ops, k)
    ensures AllSame(files, ops, k + 1) <==> Agrees(FilesAfter(files, ops, k), ops[k])
  {
    assert SameAfter(files, ops, k);
    NextSameIff(files, ops, k);
  }

  /**
   * On an accepted patch that the script carries out in full, the two engines have the same files
   * after every operation if and only if every added file has a line and every update finds its file
   * newline-terminated or leaves it some lines.
   */
  lemma PatchedAlikeIff(files: Files, patch: string)
    requires Parse(patch).Ok? && Run(files, SplitLines(patch)).code == OK
    ensures var ops := Parse(patch).value;
      && Run(files, SplitLines(patch)).files == FilesAfter(files, ops, |ops|)
      && (AllSame(files, ops, |ops|) <==> AllAgree(files, ops, |ops|))
  {
    var ops := Parse(patch).value;
    ShimRunsParsedPatch(files, patch);
    assert ops[..|ops|] == ops;
    SameUpTo(files, ops, |ops|);
  }

  /**
   * The in-memory engine accepts strictly more: where the file has a blank line that the hunk
   * lacks, the script gives up and the engine replaces the whole stretch.
   */
  lemma EngineBridgesBlankLines(a: string, b: string, hunk: Hunk)
    requires RStrip(a) != [] && RStrip(b) != [] && OldSide(hunk) == [a, b]
    ensures ShimHunk([a, [], b], hunk) == None
    ensures ApplyHunk([a, [], b], hunk) == Some(NewSide(hunk))
  {
    BridgedSpan(a, b);
    NoStrictMatch(a, b);
    assert [] + NewSide(hunk) + [] == NewSide(hunk);
  }

  lemma NoStrictMatch(a: string, b: string)
    requires RStrip(a) != [] && RStrip(b) != []
    ensures Find([a, [], b], [a, b]) == -1
    ensures Find(RStripAll([a, [], b]), RStripAll([a, b])) == -1
  {
    var source, hay, ned := [a, [], b], RStripAll([a, [], b]), RStripAll([a, b]);
    assert hay[1] == [] && ned[0] != [] && ned[1] != [];
    forall i
      ensures !MatchesAt(hay, ned, i)
    {
      assert i == 0 || i == 1 ==> hay[i..i + 2][1 - i] == hay[1];
    }
    if Find(source, [a, b]) != -1 {
      CascadeMonotone(source, [a, b]);
    }
  }

  lemma BridgedSpan(a: string, b: string)
    requires RStrip(a) != [] && RStrip(b) != []
    ensures FindFlexible([a, [], b], [a, b]) == At(0, 3)
  {
    var hay, ned := RStripAll([a, [], b]), RStripAll([a, b]);
    assert hay == [RStrip(a), [], RStrip(b)] && ned == [RStrip(a), RStrip(b)];
    assert SkipBlanks(hay, 1) == 2;
    assert FlexEnd(hay, ned, 3, 2) == 3;
    assert FlexEnd(hay, ned, 1, 1) == 3;
  }
}
