/** The patch text format: its operations, its parser and a printer. */
module PatchFormat {
  import opened Text
  import opened PatchMarkers

  type Hunk = seq<string>

  datatype Operation =
    | Update(path: string, hunks: seq<Hunk>)
    | Add(path: string, contentLines: seq<string>)
    | Delete(path: string)

  datatype Error =
    | UpdateWithoutPath
    | UpdateWithoutHunks(path: string)
    | AddWithoutPath
    | DeleteWithoutPath
    | UnknownDirective(line: string)
    | UnexpectedContent(excerpt: string)
    | NoBegin
    | NoEnd
    | NoOperations
    | HunkMismatch(path: string)

  datatype Result<T> = Ok(value: T) | Err(error: Error)

  // ---------------------------------------------------------------- lines and paths

  /** The text after the first `:` of a line. */
  function AfterColon(line: string): (rest: string)
    ensures |rest| <= |line| && rest == line[|line| - |rest|..]
  {
    if line == [] then [] else if line[0] == ':' then line[1..] else AfterColon(line[1..])
  }

  /** The path that a directive names. */
  function PathOf(line: string): (path: string)
    ensures Stripped(path)
    ensures IsLine(line) ==> IsLine(path)
  {
    StripShape(AfterColon(line));
    Strip(AfterColon(line))
  }

  predicate ValidPath(path: string) {
    path != [] && Stripped(path) && IsLine(path)
  }

  lemma {:induction false} AfterColonSkips(head: string, tail: string)
    requires ':' !in head
    ensures AfterColon(head + ":" + tail) == tail
  {
    var s := head + ":" + tail;
    if head == [] {
      assert s[1..] == tail;
    } else {
      assert s[0] == head[0] && head[0] in head;
      assert s[1..] == head[1..] + ":" + tail;
      AfterColonSkips(head[1..], tail);
    }
  }

  lemma PathOfDirective(directive: string, path: string)
    requires directive in {UPDATE, ADD, DELETE} && Stripped(path)
    ensures PathOf(directive + (" " + path)) == path
  {
    var head := directive[..|directive| - 1];
    assert directive + (" " + path) == head + ":" + (" " + path);
    AfterColonSkips(head, " " + path);
    StripLeadingSpace(path);
  }

  // ---------------------------------------------------------------- the parser's specification

  function Close(hunks: seq<Hunk>, current: Hunk): seq<Hunk> {
    if current != [] then hunks + [current] else hunks
  }

  /** Reads hunks up to the next action boundary; returns them with the lines left over. */
  function ScanHunks(lines: seq<string>, hunks: seq<Hunk>, current: Hunk): (r: (seq<Hunk>, seq<string>))
    ensures |r.1| <= |lines|
  {
    if lines == [] || IsActionBoundary(lines[0]) then (Close(hunks, current), lines)
    else if StartsWith(lines[0], HUNK) then ScanHunks(lines[1..], Close(hunks, current), [])
    else ScanHunks(lines[1..], hunks, current + [lines[0]])
  }

  /** What one line of an add operation contributes to the new file. */
  function ContentOf(line: string): seq<string> {
    if StartsWith(line, "+") then [line[1..]]
    else if !IsBlank(line) then [line]
    else []
  }

  function ScanContent(lines: seq<string>, content: seq<string>): (r: (seq<string>, seq<string>))
    ensures |r.1| <= |lines|
  {
    if lines == [] || IsActionBoundary(lines[0]) then (content, lines)
    else ScanContent(lines[1..], content + ContentOf(lines[0]))
  }

  function SkipEndOfFile(lines: seq<string>): (rest: seq<string>)
    ensures |rest| <= |lines|
  {
    if lines != [] && StartsWith(lines[0], END_OF_FILE) then lines[1..] else lines
  }

  function Finish(sawBegin: bool, sawEnd: bool, ops: seq<Operation>): Result<seq<Operation>> {
    if !sawBegin then Err(NoBegin)
    else if !sawEnd then Err(NoEnd)
    else if ops == [] then Err(NoOperations)
    else Ok(ops)
  }

  predicate OpensOperation(kind: Kind) {
    kind.UpdateLine? || kind.AddLine? || kind.DeleteLine?
  }

  /** Reads the operation that `line` opens, unchecked; returns it with the lines left over. */
  function ReadRaw(line: string, rest: seq<string>): (r: (Operation, seq<string>))
    requires OpensOperation(KindOf(line))
    ensures |r.1| <= |rest|
  {
    match KindOf(line)
    case UpdateLine =>
      var (hunks, left) := ScanHunks(rest, [], []);
      (Update(PathOf(line), hunks), SkipEndOfFile(left))
    case AddLine =>
      var (content, left) := ScanContent(rest, []);
      (Add(PathOf(line), content), SkipEndOfFile(left))
    case DeleteLine =>
      (Delete(PathOf(line)), rest)
  }

  /** An operation needs a path, and an update at least one hunk. */
  function Check(op: Operation): Result<Operation> {
    match op
    case Update(path, hunks) =>
      if path == [] then Err(UpdateWithoutPath)
      else if hunks == [] then Err(UpdateWithoutHunks(path))
      else Ok(op)
    case Add(path, _) => if path == [] then Err(AddWithoutPath) else Ok(op)
    case Delete(path) => if path == [] then Err(DeleteWithoutPath) else Ok(op)
  }

  /** The specification of the parsing loop. */
  function ParseLines(lines: seq<string>, sawBegin: bool, sawEnd: bool, ops: seq<Operation>)
    : Result<seq<Operation>>
    decreases |lines|
  {
    if lines == [] then Finish(sawBegin, sawEnd, ops)
    else
      var line, rest, kind := lines[0], lines[1..], KindOf(lines[0]);
      if kind.BeginLine? then ParseLines(rest, true, sawEnd, ops)
      else if kind.EndLine? then ParseLines(rest, sawBegin, true, ops)
      else if OpensOperation(kind) then
        var (op, left) := ReadRaw(line, rest);
        match Check(op)
        case Err(error) => Err(error)
        case Ok(_) => ParseLines(left, sawBegin, sawEnd, ops + [op])
      else if kind.EndOfFileLine? then ParseLines(rest, sawBegin, sawEnd, ops)
      else if kind.UnknownLine? then Err(UnknownDirective(line))
      else if !IsBlank(line) then Err(UnexpectedContent(Clip(line, 80)))
      else ParseLines(rest, sawBegin, sawEnd, ops)
  }

  function Parse(patch: string): Result<seq<Operation>> {
    ParseLines(SplitLines(patch), false, false, [])
  }

  // ---------------------------------------------------------------- the parser

  method CollectHunks(lines: seq<string>, start: nat) returns (hunks: seq<Hunk>, index: nat)
    requires start <= |lines|
    ensures start <= index <= |lines|
    ensures (hunks, lines[index..]) == ScanHunks(lines[start..], [], [])
  {
    var current: Hunk := [];
    hunks, index := [], start;
    while index < |lines| && !IsActionBoundary(lines[index])
      invariant start <= index <= |lines|
      invariant ScanHunks(lines[start..], [], []) == ScanHunks(lines[index..], hunks, current)
    {
      assert lines[index..][1..] == lines[index + 1..];
      if StartsWith(lines[index], HUNK) {
        if current != [] {
          hunks := hunks + [current];
          current := [];
        }
        index := index + 1;
        continue;
      }
      current := current + [lines[index]];
      index := index + 1;
    }
    if current != [] {
      hunks := hunks + [current];
    }
  }

  method CollectContent(lines: seq<string>, start: nat) returns (content: seq<string>, index: nat)
    requires start <= |lines|
    ensures start <= index <= |lines|
    ensures (content, lines[index..]) == ScanContent(lines[start..], [])
  {
    content, index := [], start;
    while index < |lines| && !IsActionBoundary(lines[index])
      invariant start <= index <= |lines|
      invariant ScanContent(lines[start..], []) == ScanContent(lines[index..], content)
    {
      assert lines[index..][1..] == lines[index + 1..];
      var item := lines[index];
      if StartsWith(item, "+") {
        content := content + [item[1..]];
      } else if !IsBlank(item) {
        content := content + [item];
      } else {
        assert content + ContentOf(item) == content;
      }
      index := index + 1;
    }
  }

  method PassEndOfFile(lines: seq<string>, start: nat) returns (index: nat)
    requires start <= |lines|
    ensures start <= index <= |lines|
    ensures lines[index..] == SkipEndOfFile(lines[start..])
  {
    index := start;
    if index < |lines| && StartsWith(lines[index], END_OF_FILE) {
      index := index + 1;
    }
  }

  method ReadOperation(lines: seq<string>, start: nat) returns (op: Operation, index: nat)
    requires start < |lines| && OpensOperation(KindOf(lines[start]))
    ensures start < index <= |lines|
    ensures (op, lines[index..]) == ReadRaw(lines[start], lines[start + 1..])
  {
    var path := PathOf(lines[start]);
    index := start + 1;
    match KindOf(lines[start])
    case UpdateLine =>
      var hunks;
      hunks, index := CollectHunks(lines, index);
      index := PassEndOfFile(lines, index);
      op := Update(path, hunks);
    case AddLine =>
      var content;
      content, index := CollectContent(lines, index);
      index := PassEndOfFile(lines, index);
      op := Add(path, content);
    case DeleteLine =>
      op := Delete(path);
  }

  method ParseWorkspacePatch(patch: string) returns (r: Result<seq<Operation>>)
    ensures r == Parse(patch)
  {
    var lines := SplitLines(patch);
    var ops: seq<Operation> := [];
    var index, sawBegin, sawEnd := 0, false, false;
    while index < |lines|
      invariant 0 <= index <= |lines|
      invariant Parse(patch) == ParseLines(lines[index..], sawBegin, sawEnd, ops)
      decreases |lines| - index
    {
      var line := lines[index];
      assert lines[index..][1..] == lines[index + 1..];
      var kind := KindOf(line);
      if kind.BeginLine? {
        sawBegin, index := true, index + 1;
      } else if kind.EndLine? {
        sawEnd, index := true, index + 1;
      } else if OpensOperation(kind) {
        var op;
        op, index := ReadOperation(lines, index);
        var checked := Check(op);
        if checked.Err? {
          return Err(checked.error);
        }
        ops := ops + [op];
      } else if kind.EndOfFileLine? {
        index := index + 1;
      } else if kind.UnknownLine? {
        return Err(UnknownDirective(line));
      } else if !IsBlank(line) {
        return Err(UnexpectedContent(Clip(line, 80)));
      } else {
        index := index + 1;
      }
    }
    r := Finish(sawBegin, sawEnd, ops);
  }

  // ---------------------------------------------------------------- the printer

  function HunkLines(hunks: seq<Hunk>): seq<string> {
    if hunks == [] then [] else [HUNK] + hunks[0] + HunkLines(hunks[1..])
  }

  function AddedLines(content: seq<string>): seq<string> {
    if content == [] then [] else ["+" + content[0]] + AddedLines(content[1..])
  }

  function Header(op: Operation): string {
    match op
    case Update(path, _) => UPDATE + (" " + path)
    case Add(path, _) => ADD + (" " + path)
    case Delete(path) => DELETE + (" " + path)
  }

  function OperationBody(op: Operation): seq<string> {
    match op
    case Update(_, hunks) => HunkLines(hunks)
    case Add(_, content) => AddedLines(content)
    case Delete(_) => []
  }

  function OperationLines(op: Operation): seq<string> {
    [Header(op)] + OperationBody(op)
  }

  function BodyLines(ops: seq<Operation>): seq<string> {
    if ops == [] then [] else OperationLines(ops[0]) + BodyLines(ops[1..])
  }

  function PatchLines(ops: seq<Operation>): seq<string> {
    [BEGIN] + BodyLines(ops) + [END]
  }

  /** A patch text for a list of operations. */
  function Print(ops: seq<Operation>): string {
    Unlines(PatchLines(ops))
  }

  predicate OrdinaryLine(line: string) {
    IsLine(line) && !IsActionBoundary(line) && !StartsWith(line, HUNK)
  }

  predicate PrintableHunk(hunk: Hunk) {
    hunk != [] && forall line | line in hunk :: OrdinaryLine(line)
  }

  predicate PrintableHunks(hunks: seq<Hunk>) {
    forall h | h in hunks :: PrintableHunk(h)
  }

  /** The operations a patch text can express. */
  predicate PrintableOp(op: Operation) {
    && ValidPath(op.path)
    && match op
       case Update(_, hunks) => hunks != [] && PrintableHunks(hunks)
       case Add(_, content) => AreLines(content)
       case Delete(_) => true
  }

  predicate Printable(ops: seq<Operation>) {
    forall op | op in ops :: PrintableOp(op)
  }

  // ---------------------------------------------------------------- parsing what was printed

  predicate AtBoundary(lines: seq<string>) {
    lines == [] || IsActionBoundary(lines[0])
  }

  /** What a printed operation is followed by: the next operation or the end marker. */
  predicate AtDirective(lines: seq<string>) {
    && lines != []
    && IsActionBoundary(lines[0])
    && !StartsWith(lines[0], END_OF_FILE)
  }

  lemma DirectiveIsBoundary(line: string)
    requires KindOf(line) in {EndLine, UpdateLine, AddLine, DeleteLine}
    ensures forall rest :: AtDirective([line] + rest)
  {
    BoundaryKinds(line);
    if StartsWith(line, END_OF_FILE) {
      EndOfFileKind(line);
    }
  }

  lemma HunkMark()
    ensures !IsActionBoundary(HUNK) && StartsWith(HUNK, HUNK)
  {
  }

  lemma ScanHunkMark(rest: seq<string>, hunks: seq<Hunk>, current: Hunk)
    ensures ScanHunks([HUNK] + rest, hunks, current) == ScanHunks(rest, Close(hunks, current), [])
  {
    HunkMark();
    assert ([HUNK] + rest)[1..] == rest;
  }

  lemma PlusLine(line: string)
    requires line != [] && line[0] == '+'
    ensures !IsActionBoundary(line) && StartsWith(line, "+")
  {
    assert line[..1] == "+";
    if StartsWith(line, "*** ") {
      Agrees(line, "*** ", 0);
    }
  }

  lemma {:induction false} ScanHunkBody(hunk: Hunk, rest: seq<string>, hunks: seq<Hunk>, current: Hunk)
    requires forall line | line in hunk :: OrdinaryLine(line)
    ensures ScanHunks(hunk + rest, hunks, current) == ScanHunks(rest, hunks, current + hunk)
  {
    if hunk == [] {
      assert hunk + rest == rest && current + hunk == current;
    } else {
      assert hunk[0] in hunk;
      assert (hunk + rest)[1..] == hunk[1..] + rest;
      assert current + [hunk[0]] + hunk[1..] == current + hunk;
      ScanHunkBody(hunk[1..], rest, hunks, current + [hunk[0]]);
    }
  }

  lemma ScanOneHunk(hunk: Hunk, tail: seq<string>, done: seq<Hunk>, current: Hunk)
    requires PrintableHunk(hunk)
    ensures ScanHunks([HUNK] + hunk + tail, done, current) == ScanHunks(tail, Close(done, current), hunk)
  {
    assert [HUNK] + hunk + tail == [HUNK] + (hunk + tail);
    ScanHunkMark(hunk + tail, done, current);
    ScanHunkBody(hunk, tail, Close(done, current), []);
    assert [] + hunk == hunk;
  }

  lemma {:induction false} ScanPrintedHunks(todo: seq<Hunk>, rest: seq<string>, done: seq<Hunk>, current: Hunk)
    requires PrintableHunks(todo) && AtBoundary(rest)
    ensures ScanHunks(HunkLines(todo) + rest, done, current) == (Close(done, current) + todo, rest)
  {
    var closed := Close(done, current);
    if todo == [] {
      assert HunkLines(todo) + rest == rest;
      assert closed + todo == closed;
    } else {
      ScanFirstHunk(todo, rest, done, current);
      ScanPrintedHunks(todo[1..], rest, closed, todo[0]);
      assert PrintableHunk(todo[0]) by { assert todo[0] in todo; }
      assert closed + [todo[0]] + todo[1..] == closed + todo;
    }
  }

  lemma ScanFirstHunk(todo: seq<Hunk>, rest: seq<string>, done: seq<Hunk>, current: Hunk)
    requires PrintableHunks(todo) && todo != []
    ensures ScanHunks(HunkLines(todo) + rest, done, current)
         == ScanHunks(HunkLines(todo[1..]) + rest, Close(done, current), todo[0])
  {
    var tail := HunkLines(todo[1..]) + rest;
    assert PrintableHunk(todo[0]) by { assert todo[0] in todo; }
    assert HunkLines(todo) + rest == [HUNK] + todo[0] + tail;
    ScanOneHunk(todo[0], tail, done, current);
  }

  lemma ScanAddedLine(text: string, rest: seq<string>, done: seq<string>)
    ensures ScanContent(["+" + text] + rest, done) == ScanContent(rest, done + [text])
  {
    var lines := ["+" + text] + rest;
    PlusLine(lines[0]);
    assert lines[0][1..] == text && lines[1..] == rest;
  }

  lemma {:induction false} ScanPrintedContent(todo: seq<string>, rest: seq<string>, done: seq<string>)
    requires AtBoundary(rest)
    ensures ScanContent(AddedLines(todo) + rest, done) == (done + todo, rest)
  {
    if todo == [] {
      assert AddedLines(todo) + rest == rest;
      assert done + todo == done;
    } else {
      assert AddedLines(todo) + rest == ["+" + todo[0]] + (AddedLines(todo[1..]) + rest);
      ScanAddedLine(todo[0], AddedLines(todo[1..]) + rest, done);
      ScanPrintedContent(todo[1..], rest, done + [todo[0]]);
      assert done + [todo[0]] + todo[1..] == done + todo;
    }
  }

  lemma OperationStep(line: string, rest: seq<string>, b: bool, e: bool, ops: seq<Operation>)
    requires OpensOperation(KindOf(line)) && Check(ReadRaw(line, rest).0).Ok?
    ensures var (op, left) := ReadRaw(line, rest);
      ParseLines([line] + rest, b, e, ops) == ParseLines(left, b, e, ops + [op])
  {
    assert ([line] + rest)[1..] == rest;
  }

  lemma MarkerStep(line: string, rest: seq<string>, b: bool, e: bool, ops: seq<Operation>)
    ensures KindOf(line) == BeginLine ==> ParseLines([line] + rest, b, e, ops) == ParseLines(rest, true, e, ops)
    ensures KindOf(line) == EndLine ==> ParseLines([line] + rest, b, e, ops) == ParseLines(rest, b, true, ops)
  {
    assert ([line] + rest)[1..] == rest;
  }

  function OpKind(op: Operation): Kind {
    match op
    case Update(_, _) => UpdateLine
    case Add(_, _) => AddLine
    case Delete(_) => DeleteLine
  }

  lemma HeaderKind(op: Operation)
    ensures KindOf(Header(op)) == OpKind(op)
  {
    match op
    case Update(path, _) => OwnPrefix(UPDATE, " " + path); UpdateKind(Header(op));
    case Add(path, _) => OwnPrefix(ADD, " " + path); AddKind(Header(op));
    case Delete(path) => OwnPrefix(DELETE, " " + path); DeleteKind(Header(op));
  }

  lemma HeaderPath(op: Operation)
    requires ValidPath(op.path)
    ensures PathOf(Header(op)) == op.path
  {
    match op
    case Update(path, _) => PathOfDirective(UPDATE, path);
    case Add(path, _) => PathOfDirective(ADD, path);
    case Delete(path) => PathOfDirective(DELETE, path);
  }

  lemma ReadPrintedOp(line: string, op: Operation, rest: seq<string>)
    requires KindOf(line) == OpKind(op) && PathOf(line) == op.path
    requires PrintableOp(op) && AtDirective(rest)
    ensures ReadRaw(line, OperationBody(op) + rest) == (op, rest)
  {
    match op
    case Update(path, hunks) =>
      ScanPrintedHunks(hunks, rest, [], []);
      assert [] + hunks == hunks;
    case Add(path, content) =>
      ScanPrintedContent(content, rest, []);
      assert [] + content == content;
    case Delete(path) =>
      assert [] + rest == rest;
  }

  lemma ParsePrintedOp(line: string, op: Operation, rest: seq<string>, done: seq<Operation>)
    requires KindOf(line) == OpKind(op) && PathOf(line) == op.path
    requires PrintableOp(op) && AtDirective(rest)
    ensures ParseLines([line] + OperationBody(op) + rest, true, false, done)
         == ParseLines(rest, true, false, done + [op])
  {
    ReadPrintedOp(line, op, rest);
    OperationStep(line, OperationBody(op) + rest, true, false, done);
    assert [line] + OperationBody(op) + rest == [line] + (OperationBody(op) + rest);
  }

  lemma EndMark()
    ensures KindOf(END) == EndLine
  {
    OwnPrefix(END, []);
    assert END + [] == END;
    EndKind(END);
  }

  lemma PrintedOpsAtDirective(ops: seq<Operation>)
    ensures AtDirective(BodyLines(ops) + [END])
  {
    if ops == [] {
      EndMark();
      DirectiveIsBoundary(END);
      assert BodyLines(ops) + [END] == [END] + [];
    } else {
      PrintedOpAtDirective(ops[0], BodyLines(ops[1..]) + [END]);
      assert BodyLines(ops) + [END] == OperationLines(ops[0]) + (BodyLines(ops[1..]) + [END]);
    }
  }

  lemma PrintedOpAtDirective(op: Operation, rest: seq<string>)
    ensures AtDirective(OperationLines(op) + rest)
  {
    HeaderKind(op);
    DirectiveIsBoundary(Header(op));
    assert OperationLines(op) + rest == [Header(op)] + (OperationBody(op) + rest);
  }

  lemma ParseEnd(done: seq<Operation>)
    ensures ParseLines([END], true, false, done) == Finish(true, true, done)
  {
    EndMark();
    MarkerStep(END, [], true, false, done);
    assert [END] + [] == [END];
  }

  lemma ParseNoMoreOps(done: seq<Operation>)
    ensures ParseLines(BodyLines([]) + [END], true, false, done) == Finish(true, true, done)
  {
    ParseEnd(done);
    assert BodyLines([]) + [END] == [END];
  }

  lemma BodyLinesCons(ops: seq<Operation>)
    requires ops != []
    ensures BodyLines(ops) + [END] == OperationLines(ops[0]) + (BodyLines(ops[1..]) + [END])
  {
  }

  lemma ParsePrintedLines(op: Operation, rest: seq<string>, done: seq<Operation>)
    requires PrintableOp(op) && AtDirective(rest)
    ensures ParseLines(OperationLines(op) + rest, true, false, done) == ParseLines(rest, true, false, done + [op])
  {
    HeaderKind(op);
    HeaderPath(op);
    ParsePrintedOp(Header(op), op, rest, done);
  }

  lemma {:induction false} ParsePrintedOps(todo: seq<Operation>, done: seq<Operation>)
    requires Printable(todo)
    ensures ParseLines(BodyLines(todo) + [END], true, false, done) == Finish(true, true, done + todo)
  {
    if todo == [] {
      ParseNoMoreOps(done);
      assert done + [] == done;
    } else {
      ParseFirstOp(todo, done);
      PrintableTail(todo);
      ParsePrintedOps(todo[1..], done + [todo[0]]);
      MoveFirst(done, todo);
    }
  }

  lemma MoveFirst<T>(done: seq<T>, todo: seq<T>)
    requires todo != []
    ensures done + [todo[0]] + todo[1..] == done + todo
  {
  }

  lemma PrintableTail(ops: seq<Operation>)
    requires Printable(ops) && ops != []
    ensures Printable(ops[1..])
  {
  }

  lemma ParseFirstOp(todo: seq<Operation>, done: seq<Operation>)
    requires Printable(todo) && todo != []
    ensures ParseLines(BodyLines(todo) + [END], true, false, done)
         == ParseLines(BodyLines(todo[1..]) + [END], true, false, done + [todo[0]])
  {
    assert PrintableOp(todo[0]) by { assert todo[0] in todo; }
    PrintedOpsAtDirective(todo[1..]);
    ParsePrintedLines(todo[0], BodyLines(todo[1..]) + [END], done);
    BodyLinesCons(todo);
  }

  lemma {:induction false} HunkLinesAreLines(hunks: seq<Hunk>)
    requires PrintableHunks(hunks)
    ensures AreLines(HunkLines(hunks))
  {
    if hunks != [] {
      HunkLinesAreLines(hunks[1..]);
      assert hunks[0] in hunks;
      assert PrintableHunk(hunks[0]);
    }
  }

  lemma {:induction false} AddedLinesAreLines(content: seq<string>)
    requires AreLines(content)
    ensures AreLines(AddedLines(content))
  {
    if content != [] {
      AddedLinesAreLines(content[1..]);
      assert content[0] in content;
    }
  }

  lemma OperationLinesAreLines(op: Operation)
    requires PrintableOp(op)
    ensures AreLines(OperationLines(op))
  {
    HeaderIsLine(op);
    match op
    case Update(_, hunks) => HunkLinesAreLines(hunks);
    case Add(_, content) => AddedLinesAreLines(content);
    case Delete(_) =>
  }

  lemma HeaderIsLine(op: Operation)
    requires IsLine(op.path)
    ensures IsLine(Header(op))
  {
  }

  lemma {:induction false} BodyLinesAreLines(ops: seq<Operation>)
    requires Printable(ops)
    ensures AreLines(BodyLines(ops))
  {
    if ops != [] {
      BodyLinesAreLines(ops[1..]);
      assert ops[0] in ops;
      OperationLinesAreLines(ops[0]);
    }
  }

  /** Every non-empty list of printable operations survives printing and parsing. */
  lemma PrintThenParse(ops: seq<Operation>)
    requires Printable(ops) && ops != []
    ensures Parse(Print(ops)) == Ok(ops)
  {
    PatchLinesAreLines(ops);
    SplitUnlines(PatchLines(ops));
    ParsePatchLines(ops);
  }

  lemma ParsePatchLines(ops: seq<Operation>)
    requires Printable(ops) && ops != []
    ensures ParseLines(PatchLines(ops), false, false, []) == Ok(ops)
  {
    var rest := BodyLines(ops) + [END];
    BeginMark();
    MarkerStep(BEGIN, rest, false, false, []);
    assert PatchLines(ops) == [BEGIN] + rest;
    ParsePrintedOps(ops, []);
    assert [] + ops == ops;
  }

  lemma PatchLinesAreLines(ops: seq<Operation>)
    requires Printable(ops)
    ensures AreLines(PatchLines(ops))
  {
    BodyLinesAreLines(ops);
  }

  lemma BeginMark()
    ensures KindOf(BEGIN) == BeginLine
  {
    OwnPrefix(BEGIN, []);
    assert BEGIN + [] == BEGIN;
  }

  // ---------------------------------------------------------------- printing what was parsed

  predicate OrdinaryLines(hunk: Hunk) {
    forall line | line in hunk :: OrdinaryLine(line)
  }

  lemma {:induction false} ScannedHunksPrintable(lines: seq<string>, hunks: seq<Hunk>, current: Hunk)
    requires AreLines(lines) && PrintableHunks(hunks) && OrdinaryLines(current)
    ensures PrintableHunks(ScanHunks(lines, hunks, current).0)
    ensures AreLines(ScanHunks(lines, hunks, current).1)
  {
    if lines == [] || IsActionBoundary(lines[0]) {
    } else {
      assert lines[0] in lines;
      if StartsWith(lines[0], HUNK) {
        ScannedHunksPrintable(lines[1..], Close(hunks, current), []);
      } else {
        ScannedHunksPrintable(lines[1..], hunks, current + [lines[0]]);
      }
    }
  }

  lemma {:induction false} ScannedContentPrintable(lines: seq<string>, content: seq<string>)
    requires AreLines(lines) && AreLines(content)
    ensures AreLines(ScanContent(lines, content).0)
    ensures AreLines(ScanContent(lines, content).1)
  {
    if lines == [] || IsActionBoundary(lines[0]) {
    } else {
      assert lines[0] in lines;
      ScannedContentPrintable(lines[1..], content + ContentOf(lines[0]));
    }
  }

  lemma {:induction false} ParsedOpsPrintable(lines: seq<string>, sawBegin: bool, sawEnd: bool, ops: seq<Operation>)
    requires AreLines(lines) && Printable(ops)
    requires ParseLines(lines, sawBegin, sawEnd, ops).Ok?
    ensures Printable(ParseLines(lines, sawBegin, sawEnd, ops).value)
    ensures ParseLines(lines, sawBegin, sawEnd, ops).value != []
    decreases |lines|
  {
    if lines != [] {
      var line, rest := lines[0], lines[1..];
      assert line in lines;
      var kind := KindOf(line);
      if OpensOperation(kind) {
        ReadRawPrintable(line, rest);
        var (op, left) := ReadRaw(line, rest);
        ParsedOpsPrintable(left, sawBegin, sawEnd, ops + [op]);
      } else {
        ParsedOpsPrintable(rest, sawBegin || kind.BeginLine?, sawEnd || kind.EndLine?, ops);
      }
    }
  }

  lemma ReadRawPrintable(line: string, rest: seq<string>)
    requires IsLine(line) && AreLines(rest) && OpensOperation(KindOf(line))
    requires Check(ReadRaw(line, rest).0).Ok?
    ensures PrintableOp(ReadRaw(line, rest).0)
    ensures AreLines(ReadRaw(line, rest).1)
  {
    ScannedHunksPrintable(rest, [], []);
    ScannedContentPrintable(rest, []);
  }

  /** Whatever the parser accepts prints to a patch with the same meaning. */
  lemma ParseThenPrint(patch: string)
    requires Parse(patch).Ok?
    ensures Printable(Parse(patch).value)
    ensures Parse(Print(Parse(patch).value)) == Parse(patch)
  {
    ParsedOpsPrintable(SplitLines(patch), false, false, []);
    PrintThenParse(Parse(patch).value);
  }

  /** The lists of operations the parser can return are exactly the non-empty printable ones. */
  lemma ParserImage(ops: seq<Operation>)
    ensures (exists patch :: Parse(patch) == Ok(ops)) <==> Printable(ops) && ops != []
  {
    if patch :| Parse(patch) == Ok(ops) {
      ParsedOpsPrintable(SplitLines(patch), false, false, []);
    }
    if Printable(ops) && ops != [] {
      PrintThenParse(ops);
    }
  }

  /**
   * The markers may stand anywhere between operations, although the error messages speak of the
   * start and the end of the patch.
   */
  lemma MarkersInAnyOrder(path: string)
    requires ValidPath(path)
    ensures Parse(Unlines([END, Header(Delete(path)), BEGIN])) == Ok([Delete(path)])
  {
    var op := Delete(path);
    HeaderKind(op);
    HeaderPath(op);
    ReversedMarkersAreLines(op);
    SplitUnlines([END, Header(op), BEGIN]);
    ParseMarkersReversed(Header(op), op);
  }

  lemma ReversedMarkersAreLines(op: Operation)
    requires IsLine(op.path)
    ensures AreLines([END, Header(op), BEGIN])
  {
    HeaderIsLine(op);
  }

  lemma ParseMarkersReversed(line: string, op: Operation)
    requires op.Delete? && KindOf(line) == DeleteLine && PathOf(line) == op.path != []
    ensures ParseLines([END, line, BEGIN], false, false, []) == Ok([op])
  {
    EndMark();
    BeginMark();
    MarkerStep(END, [line, BEGIN], false, false, []);
    OperationStep(line, [BEGIN], false, true, []);
    MarkerStep(BEGIN, [], false, true, [op]);
    assert [END, line, BEGIN] == [END] + [line, BEGIN];
    assert [line, BEGIN] == [line] + [BEGIN];
    assert [BEGIN] == [BEGIN] + [];
    assert [] + [op] == [op];
  }

  // ---------------------------------------------------------------- what is accepted

  /** A patch as its lines segment it, without judging anything. */
  datatype Item = Marker(kind: Kind) | Blank | Unknown | Stray | Op(op: Operation)

  function ItemOf(line: string): Item
    requires !OpensOperation(KindOf(line))
  {
    match KindOf(line)
    case UnknownLine => Unknown
    case PlainLine => if IsBlank(line) then Blank else Stray
    case kind => Marker(kind)
  }

  function Items(lines: seq<string>): seq<Item>
    decreases |lines|
  {
    if lines == [] then []
    else if OpensOperation(KindOf(lines[0])) then
      var (op, left) := ReadRaw(lines[0], lines[1..]);
      [Op(op)] + Items(left)
    else [ItemOf(lines[0])] + Items(lines[1..])
  }

  predicate Allowed(item: Item) {
    !item.Unknown? && !item.Stray? && (item.Op? ==> Check(item.op).Ok?)
  }

  predicate AllAllowed(items: seq<Item>) {
    forall item | item in items :: Allowed(item)
  }

  function OpsIn(item: Item): seq<Operation> {
    if item.Op? then [item.op] else []
  }

  function OpsOf(items: seq<Item>): seq<Operation> {
    if items == [] then [] else OpsIn(items[0]) + OpsOf(items[1..])
  }

  /** The verdict on the items still to be read, given what was seen before them. */
  ghost predicate Judged(items: seq<Item>, sawBegin: bool, sawEnd: bool, ops: seq<Operation>, r: Result<seq<Operation>>) {
    if AllAllowed(items) then
      r == Finish(sawBegin || Marker(BeginLine) in items, sawEnd || Marker(EndLine) in items, ops + OpsOf(items))
    else r.Err?
  }

  lemma JudgedCons(item: Item, items: seq<Item>, b: bool, e: bool, ops: seq<Operation>, r: Result<seq<Operation>>)
    requires if Allowed(item)
      then Judged(items, b || item == Marker(BeginLine), e || item == Marker(EndLine), ops + OpsIn(item), r)
      else r.Err?
    ensures Judged([item] + items, b, e, ops, r)
  {
    assert ([item] + items)[0] == item && ([item] + items)[1..] == items;
    assert AllAllowed([item] + items) <==> Allowed(item) && AllAllowed(items) by {
      assert item in [item] + items;
      assert forall i | i in items :: i in [item] + items;
    }
    assert ops + OpsIn(item) + OpsOf(items) == ops + OpsOf([item] + items);
  }

  /** One turn of the parsing loop on a line that opens no operation. */
  lemma LineStep(line: string, rest: seq<string>, b: bool, e: bool, ops: seq<Operation>)
    requires !OpensOperation(KindOf(line))
    ensures var item := ItemOf(line); var r := ParseLines([line] + rest, b, e, ops);
      if Allowed(item)
      then r == ParseLines(rest, b || item == Marker(BeginLine), e || item == Marker(EndLine), ops)
      else r.Err?
  {
    assert ([line] + rest)[1..] == rest;
  }

  lemma RefusedOperation(line: string, rest: seq<string>, b: bool, e: bool, ops: seq<Operation>)
    requires OpensOperation(KindOf(line)) && Check(ReadRaw(line, rest).0).Err?
    ensures ParseLines([line] + rest, b, e, ops).Err?
  {
    assert ([line] + rest)[1..] == rest;
  }

  lemma {:induction false} ParseJudgesItems(lines: seq<string>, sawBegin: bool, sawEnd: bool, ops: seq<Operation>)
    ensures Judged(Items(lines), sawBegin, sawEnd, ops, ParseLines(lines, sawBegin, sawEnd, ops))
    decreases |lines|, 1
  {
    if lines == [] {
      assert ops + OpsOf([]) == ops;
    } else if OpensOperation(KindOf(lines[0])) {
      JudgeOperation(lines, sawBegin, sawEnd, ops);
    } else {
      var line, rest := lines[0], lines[1..];
      var item := ItemOf(line);
      var b, e := sawBegin || item == Marker(BeginLine), sawEnd || item == Marker(EndLine);
      ParseJudgesItems(rest, b, e, ops);
      LineStep(line, rest, sawBegin, sawEnd, ops);
      assert ops + [] == ops;
      assert lines == [line] + rest;
      JudgedCons(item, Items(rest), sawBegin, sawEnd, ops, ParseLines(lines, sawBegin, sawEnd, ops));
    }
  }

  lemma {:induction false} JudgeOperation(lines: seq<string>, sawBegin: bool, sawEnd: bool, ops: seq<Operation>)
    requires lines != [] && OpensOperation(KindOf(lines[0]))
    ensures Judged(Items(lines), sawBegin, sawEnd, ops, ParseLines(lines, sawBegin, sawEnd, ops))
    decreases |lines|, 0
  {
    var line, rest := lines[0], lines[1..];
    var (op, left) := ReadRaw(line, rest);
    assert lines == [line] + rest;
    if Check(op).Ok? {
      ParseJudgesItems(left, sawBegin, sawEnd, ops + [op]);
      OperationStep(line, rest, sawBegin, sawEnd, ops);
    } else {
      RefusedOperation(line, rest, sawBegin, sawEnd, ops);
    }
    JudgedCons(Op(op), Items(left), sawBegin, sawEnd, ops, ParseLines(lines, sawBegin, sawEnd, ops));
  }

  /**
   * The parser accepts a patch if and only if both markers stand somewhere at its top level, no line
   * there is stray or an unknown directive, every operation is complete and there is at least one;
   * it then returns the operations in order.
   */
  lemma AcceptedIff(patch: string)
    ensures var items := Items(SplitLines(patch));
      && (Parse(patch).Ok? <==>
            AllAllowed(items) && Marker(BeginLine) in items && Marker(EndLine) in items && OpsOf(items) != [])
      && (Parse(patch).Ok? ==> Parse(patch).value == OpsOf(items))
  {
    ParseJudgesItems(SplitLines(patch), false, false, []);
    assert [] + OpsOf(Items(SplitLines(patch))) == OpsOf(Items(SplitLines(patch)));
  }
}
