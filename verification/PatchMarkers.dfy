/** The marker lines of the patch format and how a line is recognised as one. */
module PatchMarkers {
  import opened Text

  const BEGIN := "*** Begin Patch"
  const END := "*** End Patch"
  const UPDATE := "*** Update File:"
  const ADD := "*** Add File:"
  const DELETE := "*** Delete File:"
  const END_OF_FILE := "*** End of File"
  const HUNK := "@@"

  /** What a line at the top level of a patch is, tested in the parser's order. */
  datatype Kind = BeginLine | EndLine | UpdateLine | AddLine | DeleteLine | EndOfFileLine | UnknownLine | PlainLine

  function KindOf(line: string): Kind {
    if StartsWith(line, BEGIN) then BeginLine
    else if StartsWith(line, END) then EndLine
    else if StartsWith(line, UPDATE) then UpdateLine
    else if StartsWith(line, ADD) then AddLine
    else if StartsWith(line, DELETE) then DeleteLine
    else if StartsWith(line, END_OF_FILE) then EndOfFileLine
    else if StartsWith(line, "***") then UnknownLine
    else PlainLine
  }

  predicate IsActionBoundary(line: string) {
    && StartsWith(line, "*** ")
    && (|| StartsWith(line, UPDATE)
        || StartsWith(line, ADD)
        || StartsWith(line, DELETE)
        || StartsWith(line, END)
        || StartsWith(line, END_OF_FILE))
  }

  lemma Agrees(line: string, prefix: string, k: nat)
    requires StartsWith(line, prefix) && k < |prefix|
    ensures line[k] == prefix[k]
  {
    assert line[..|prefix|][k] == line[k];
  }

  lemma OwnPrefix(prefix: string, rest: string)
    ensures StartsWith(prefix + rest, prefix)
  {
  }

  /** A line that starts with one marker starts with no other: they differ at their fifth or ninth character. */
  lemma MarkersDiffer(line: string, marker: string, other: string)
    requires marker in {BEGIN, END, UPDATE, ADD, DELETE, END_OF_FILE}
    requires other in {BEGIN, END, UPDATE, ADD, DELETE, END_OF_FILE}
    requires StartsWith(line, marker) && StartsWith(line, other)
    ensures marker == other
  {
    Agrees(line, marker, 4);
    Agrees(line, other, 4);
    Agrees(line, marker, 8);
    Agrees(line, other, 8);
  }

  /** A line's kind is determined by the one marker it starts with. */
  lemma UpdateKind(line: string)
    requires StartsWith(line, UPDATE)
    ensures KindOf(line) == UpdateLine
  {
    if StartsWith(line, BEGIN) { MarkersDiffer(line, UPDATE, BEGIN); }
    if StartsWith(line, END) { MarkersDiffer(line, UPDATE, END); }
  }

  lemma AddKind(line: string)
    requires StartsWith(line, ADD)
    ensures KindOf(line) == AddLine
  {
    if StartsWith(line, BEGIN) { MarkersDiffer(line, ADD, BEGIN); }
    if StartsWith(line, END) { MarkersDiffer(line, ADD, END); }
    if StartsWith(line, UPDATE) { MarkersDiffer(line, ADD, UPDATE); }
  }

  lemma DeleteKind(line: string)
    requires StartsWith(line, DELETE)
    ensures KindOf(line) == DeleteLine
  {
    if StartsWith(line, BEGIN) { MarkersDiffer(line, DELETE, BEGIN); }
    if StartsWith(line, END) { MarkersDiffer(line, DELETE, END); }
    if StartsWith(line, UPDATE) { MarkersDiffer(line, DELETE, UPDATE); }
    if StartsWith(line, ADD) { MarkersDiffer(line, DELETE, ADD); }
  }

  lemma EndKind(line: string)
    requires StartsWith(line, END)
    ensures KindOf(line) == EndLine
  {
    if StartsWith(line, BEGIN) { MarkersDiffer(line, END, BEGIN); }
  }

  lemma EndOfFileKind(line: string)
    requires StartsWith(line, END_OF_FILE)
    ensures KindOf(line) == EndOfFileLine
  {
    if StartsWith(line, BEGIN) { MarkersDiffer(line, END_OF_FILE, BEGIN); }
    if StartsWith(line, END) { MarkersDiffer(line, END_OF_FILE, END); }
    if StartsWith(line, UPDATE) { MarkersDiffer(line, END_OF_FILE, UPDATE); }
    if StartsWith(line, ADD) { MarkersDiffer(line, END_OF_FILE, ADD); }
    if StartsWith(line, DELETE) { MarkersDiffer(line, END_OF_FILE, DELETE); }
  }

  predicate BoundaryKind(kind: Kind) {
    kind in {EndLine, UpdateLine, AddLine, DeleteLine, EndOfFileLine}
  }

  lemma MarkerHead(line: string, marker: string)
    requires marker in {END, UPDATE, ADD, DELETE, END_OF_FILE}
    requires StartsWith(line, marker)
    ensures StartsWith(line, "*** ")
  {
    assert marker[..4] == "*** ";
    assert line[..4] == line[..|marker|][..4];
  }

  /** The action boundaries are the lines of five kinds; `*** Begin Patch` is not one of them. */
  lemma BoundaryKinds(line: string)
    ensures IsActionBoundary(line) <==> BoundaryKind(KindOf(line))
  {
    if StartsWith(line, UPDATE) {
      UpdateKind(line);
      MarkerHead(line, UPDATE);
    } else if StartsWith(line, ADD) {
      AddKind(line);
      MarkerHead(line, ADD);
    } else if StartsWith(line, DELETE) {
      DeleteKind(line);
      MarkerHead(line, DELETE);
    } else if StartsWith(line, END) {
      EndKind(line);
      MarkerHead(line, END);
    } else if StartsWith(line, END_OF_FILE) {
      EndOfFileKind(line);
      MarkerHead(line, END_OF_FILE);
    }
  }
}
