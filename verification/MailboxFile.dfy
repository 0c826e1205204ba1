/** The mailbox file: how records are written into it and what reading it line by line makes of them. */
module MailboxFile {
  import opened Text
  import opened JsonRepair

  /** What a line of the file yields; `Malformed` stands for a line that is not a JSON object. */
  datatype Entry = Entry(id: string, text: string) | Malformed

  type Log = seq<Entry>

  // ---------------------------------------------------------------- writing

  /** The separators that `json.dumps` leaves as they are but `splitlines` splits at. */
  predicate SplitsRecord(c: char) {
    c == '\U{85}' || c == '\U{2028}' || c == '\U{2029}'
  }

  predicate HasNoSeparator(s: string) {
    forall c | c in s :: !SplitsRecord(c)
  }

  function HexDigit(d: int): char
    requires 0 <= d < 16
  {
    if d < 10 then '0' + d as char else 'a' + (d - 10) as char
  }

  /** How `json.dumps(..., ensure_ascii=False)` writes one character of a string. */
  function EscapeChar(c: char): (s: string)
    ensures IsLine(s) <==> !SplitsRecord(c)
    ensures s == [c] || (|s| >= 2 && s[0] == '\\')
    ensures c == '"' || c == '\\' ==> s != [c]
  {
    if c == '"' || c == '\\' then ['\\', c]
    else if c == '\n' then ['\\', 'n']
    else if c == '\r' then ['\\', 'r']
    else if c == '\t' then ['\\', 't']
    else if c == '\U{08}' then ['\\', 'b']
    else if c == '\U{0C}' then ['\\', 'f']
    else if c < ' ' then ['\\', 'u', '0', '0', HexDigit(c as int / 16), HexDigit(c as int % 16)]
    else
      assert c in [c];
      [c]
  }

  function Escape(s: string): string {
    if s == [] then [] else EscapeChar(s[0]) + Escape(s[1..])
  }

  const QUOTE := "\""

  /** A key with what stands before it, and the start of its value. */
  function Field(before: string, key: string): string {
    before + (QUOTE + (key + (QUOTE + (": " + QUOTE))))
  }

  const ID_FIELD := Field("{", "msg_id")
  const STAMP_FIELD := Field(", ", "ts")
  const TEXT_FIELD := Field(", ", "text")
  const RECORD_END := QUOTE + "}"

  /** What stands between id and text. */
  function Middle(stamp: string): string {
    QUOTE + (STAMP_FIELD + (Escape(stamp) + (QUOTE + TEXT_FIELD)))
  }

  /** The line that a write appends; `stamp` is the time stamp. */
  function Encode(id: string, stamp: string, text: string): string {
    ID_FIELD + (Escape(id) + (Middle(stamp) + (Escape(text) + RECORD_END)))
  }

  datatype Written = Written(id: string, stamp: string, text: string)

  function EncodeAll(ws: seq<Written>): (records: seq<string>)
    ensures |records| == |ws|
    ensures forall i | 0 <= i < |ws| :: records[i] == Encode(ws[i].id, ws[i].stamp, ws[i].text)
  {
    if ws == [] then [] else [Encode(ws[0].id, ws[0].stamp, ws[0].text)] + EncodeAll(ws[1..])
  }

  /** No separator that would split the record. */
  predicate Unsplit(w: Written) {
    HasNoSeparator(w.id) && HasNoSeparator(w.text)
  }

  // ---------------------------------------------------------------- reading

  /** The non-blank lines that a drain finds in a file's content. */
  function FileLines(content: string): seq<string> {
    NonBlank(SplitLines(Strip(content)))
  }

  function NonBlank(lines: seq<string>): seq<string> {
    if lines == [] then []
    else (if Strip(lines[0]) == [] then [] else [Strip(lines[0])]) + NonBlank(lines[1..])
  }

  /** What `json.loads` and the two look-ups make of a line. */
  type Reader = string -> Entry

  function Read(reader: Reader, lines: seq<string>): (log: Log)
    ensures |log| == |lines|
  {
    if lines == [] then [] else [reader(lines[0])] + Read(reader, lines[1..])
  }

  function LogOf(reader: Reader, content: string): Log {
    Read(reader, FileLines(content))
  }

  predicate IsPunctuation(c: char) {
    c == '"' || c == '{' || c == '}' || c == '[' || c == ']' || c == ':' || c == ','
  }

  predicate InNumber(c: char) {
    '0' <= c <= '9' || c == '+' || c == '-' || c == '.' || c == 'e' || c == 'E'
  }

  /** The letters of `true`, `false`, `null`, `NaN` and `Infinity`. */
  predicate InLiteralName(c: char) {
    || c == 't' || c == 'r' || c == 'u' || c == 'e' || c == 'f' || c == 'a' || c == 'l' || c == 's'
    || c == 'n' || c == 'N' || c == 'I' || c == 'i' || c == 'y'
  }

  /** What may stand outside the literals of a JSON text. */
  predicate InGrammar(c: char) {
    IsSpace(c) || IsPunctuation(c) || InNumber(c) || InLiteralName(c)
  }

  /** Every literal is closed, and outside them stand only characters of the grammar. */
  predicate WellQuoted(q: State, s: string)
    decreases s
  {
    if s == [] then q == Outside
    else (q == Outside ==> InGrammar(s[0])) && WellQuoted(Next(q, s[0]), s[1..])
  }

  /**
   * What is needed of the reader: it reads records back, refuses lines that are no JSON because of
   * their quotes or the characters outside them, and finds nothing in a line without a literal.
   */
  ghost predicate ReadsJson(reader: Reader) {
    && (forall id, stamp, text :: reader(Encode(id, stamp, text)) == Entry(id, text))
    && (forall line :: !WellQuoted(Outside, line) ==> reader(line) == Malformed)
    && (forall line :: '"' !in line ==> reader(line) == Malformed || reader(line) == Entry([], []))
  }

  // ---------------------------------------------------------------- scanning records

  lemma {:induction false} QuotedSuffix(q: State, a: string, b: string)
    requires WellQuoted(q, a + b)
    ensures WellQuoted(StateAfter(q, a), b)
    decreases a
  {
    if a == [] {
      assert a + b == b;
    } else {
      assert (a + b)[0] == a[0] && (a + b)[1..] == a[1..] + b;
      QuotedSuffix(Next(q, a[0]), a[1..], b);
    }
  }

  /** A text without quotes and backslashes leaves the walker where it is. */
  lemma {:induction false} PlainKeepsState(q: State, s: string)
    requires q != Escaping && '"' !in s && '\\' !in s
    ensures StateAfter(q, s) == q
    decreases s
  {
    if s != [] {
      assert s[0] in s;
      PlainKeepsState(q, s[1..]);
    }
  }

  lemma {:induction false} StateAppend(q: State, a: string, b: string)
    ensures StateAfter(q, a + b) == StateAfter(StateAfter(q, a), b)
    decreases a
  {
    RepairAppend(q, a, b);
  }

  lemma CharStaysInside(c: char)
    ensures StateAfter(Inside, EscapeChar(c)) == Inside
  {
    var s := EscapeChar(c);
    if s != [c] {
      assert Next(Inside, s[0]) == Escaping;
      assert s[1..][1..] == s[2..];
      PlainKeepsState(Inside, s[2..]);
    } else {
      assert s[1..] == [];
    }
  }

  /** Escaped text is all inside its literal. */
  lemma {:induction false} EscapedStaysInside(s: string)
    ensures StateAfter(Inside, Escape(s)) == Inside
  {
    if s != [] {
      CharStaysInside(s[0]);
      EscapedStaysInside(s[1..]);
      StateAppend(Inside, EscapeChar(s[0]), Escape(s[1..]));
    }
  }

  lemma NotInGrammar()
    ensures !InGrammar('\\') && !InGrammar('x')
  {
  }

  /** A character that starts an accepted text outside every literal, if it is no quote, changes nothing. */
  lemma OneOutside(c: char, rest: string)
    requires WellQuoted(Outside, [c] + rest) && c != '"'
    ensures InGrammar(c) && WellQuoted(Outside, rest)
  {
    assert ([c] + rest)[1..] == rest;
  }

  lemma EscapedCharFromOutside(c: char, rest: string)
    requires WellQuoted(Outside, EscapeChar(c) + rest)
    ensures EscapeChar(c) == [c] && c != '"' && c != '\\' && WellQuoted(Outside, rest)
  {
    var s := EscapeChar(c);
    NotInGrammar();
    var tail := s[1..] + rest;
    assert s + rest == [s[0]] + tail;
    OneOutside(s[0], tail);
    assert s == [c] ==> tail == rest;
  }

  /** Read from outside a literal, escaped text is refused or holds neither quotes nor backslashes. */
  lemma {:induction false} EscapedFromOutside(s: string, rest: string)
    requires WellQuoted(Outside, Escape(s) + rest)
    ensures '"' !in Escape(s) && '\\' !in Escape(s) && WellQuoted(Outside, rest)
  {
    if s == [] {
      assert Escape(s) + rest == rest;
    } else {
      assert Escape(s) + rest == EscapeChar(s[0]) + (Escape(s[1..]) + rest);
      EscapedCharFromOutside(s[0], Escape(s[1..]) + rest);
      EscapedFromOutside(s[1..], rest);
    }
  }

  // ---------------------------------------------------------------- pieces of split records

  /** A line in which no reader finds anything. */
  predicate Dead(line: string) {
    !WellQuoted(Outside, line) || '"' !in line
  }

  lemma DeadReads(reader: Reader, line: string)
    requires ReadsJson(reader) && Dead(line)
    ensures reader(line) == Malformed || reader(line) == Entry([], [])
  {
  }

  /** A piece that cannot end where a line breaks inside the text after it. */
  ghost predicate Open(piece: string) {
    forall v :: Dead(piece + Escape(v))
  }

  /** A piece that cannot end with the record either. */
  ghost predicate NeverEnds(piece: string) {
    forall v :: Dead(piece + (Escape(v) + RECORD_END))
  }

  lemma EndIsOpen()
    ensures !WellQuoted(Outside, RECORD_END)
  {
    assert RECORD_END[1..] == "}" && ("}")[1..] == [];
    assert !WellQuoted(Inside, "}");
  }

  lemma FreshPieceOpen()
    ensures Open([]) && NeverEnds([])
  {
    forall v
      ensures Dead([] + Escape(v)) && Dead([] + (Escape(v) + RECORD_END))
    {
      if WellQuoted(Outside, Escape(v)) {
        assert Escape(v) + [] == Escape(v);
        EscapedFromOutside(v, []);
      }
      assert [] + Escape(v) == Escape(v);
      assert [] + (Escape(v) + RECORD_END) == Escape(v) + RECORD_END;
      EndIsOpen();
      if WellQuoted(Outside, Escape(v) + RECORD_END) {
        EscapedFromOutside(v, RECORD_END);
      }
    }
  }

  lemma InsideIsDead(piece: string)
    requires StateAfter(Outside, piece) == Inside
    ensures !WellQuoted(Outside, piece)
  {
    if WellQuoted(Outside, piece) {
      assert piece + [] == piece;
      QuotedSuffix(Outside, piece, []);
    }
  }

  /** A piece that ends inside a literal stays there. */
  lemma InsideIsOpen(piece: string)
    requires StateAfter(Outside, piece) == Inside
    ensures Open(piece)
  {
    forall v
      ensures Dead(piece + Escape(v))
    {
      StateAppend(Outside, piece, Escape(v));
      EscapedStaysInside(v);
      InsideIsDead(piece + Escape(v));
    }
  }

  predicate Plain(s: string) {
    '"' !in s && '\\' !in s
  }

  lemma QuoteToggles(s: string, rest: string)
    requires Plain(s)
    ensures StateAfter(Outside, s + (QUOTE + rest)) == StateAfter(Inside, rest)
    ensures StateAfter(Inside, s + (QUOTE + rest)) == StateAfter(Outside, rest)
  {
    StateAppend(Outside, s, QUOTE + rest);
    StateAppend(Inside, s, QUOTE + rest);
    PlainKeepsState(Outside, s);
    PlainKeepsState(Inside, s);
    assert (QUOTE + rest)[1..] == rest;
  }

  lemma FieldOpens(before: string, key: string)
    requires Plain(before) && Plain(key)
    ensures StateAfter(Outside, Field(before, key)) == Inside
  {
    QuoteToggles(before, key + (QUOTE + (": " + QUOTE)));
    QuoteToggles(key, ": " + QUOTE);
    QuoteToggles(": ", []);
    assert QUOTE + [] == QUOTE;
  }

  lemma FieldsPlain()
    ensures Plain("{") && Plain("msg_id") && Plain(", ") && Plain("ts") && Plain("text")
  {
  }

  lemma FieldsOpen()
    ensures StateAfter(Outside, ID_FIELD) == Inside
    ensures StateAfter(Outside, STAMP_FIELD) == Inside
    ensures StateAfter(Outside, TEXT_FIELD) == Inside
  {
    FieldsPlain();
    FieldOpens("{", "msg_id");
    FieldOpens(", ", "ts");
    FieldOpens(", ", "text");
  }

  /** From inside the id, what follows leads into the text. */
  lemma MiddleOpens(stamp: string)
    ensures StateAfter(Inside, Middle(stamp)) == Inside
  {
    var end := QUOTE + TEXT_FIELD;
    FieldsOpen();
    QuoteToggles([], STAMP_FIELD + (Escape(stamp) + end));
    QuoteToggles([], TEXT_FIELD);
    assert [] + Middle(stamp) == Middle(stamp) && [] + end == end;
    StateAppend(Outside, STAMP_FIELD, Escape(stamp) + end);
    StateAppend(Inside, Escape(stamp), end);
    EscapedStaysInside(stamp);
  }

  lemma LeadCloses()
    ensures StateAfter(Outside, QUOTE + (", " + QUOTE)) == Outside
  {
    FieldsPlain();
    QuoteToggles([], ", " + QUOTE);
    QuoteToggles(", ", []);
    assert [] + (QUOTE + (", " + QUOTE)) == QUOTE + (", " + QUOTE) && QUOTE + [] == QUOTE;
  }

  lemma KeyCloses(key: string)
    requires Plain(key)
    ensures StateAfter(Outside, key + (QUOTE + (": " + QUOTE))) == Outside
  {
    QuoteToggles(key, ": " + QUOTE);
    QuoteToggles(": ", []);
    assert QUOTE + [] == QUOTE;
  }

  /** A reader outside that meets the quote before a field finds the field's key outside as well. */
  lemma KeyFromOutside(key: string, rest: string)
    requires WellQuoted(Outside, QUOTE + (Field(", ", key) + rest)) && Plain(key)
    ensures WellQuoted(Outside, key + (QUOTE + (": " + (QUOTE + rest))))
    ensures WellQuoted(Outside, rest)
  {
    var lead, tail := QUOTE + (", " + QUOTE), QUOTE + (": " + (QUOTE + rest));
    assert QUOTE + (Field(", ", key) + rest) == lead + (key + tail);
    QuotedSuffix(Outside, lead, key + tail);
    LeadCloses();
    assert key + tail == key + (QUOTE + (": " + QUOTE)) + rest;
    QuotedSuffix(Outside, key + (QUOTE + (": " + QUOTE)), rest);
    KeyCloses(key);
  }

  lemma TextKeyRefused(rest: string)
    ensures !WellQuoted(Outside, "text" + rest)
  {
    if WellQuoted(Outside, "text" + rest) {
      assert "text" + rest == "te" + ("xt" + rest);
      QuotedSuffix(Outside, "te", "xt" + rest);
      PlainKeepsState(Outside, "te");
      NotInGrammar();
    }
  }

  lemma MiddleFromOutside(stamp: string, rest: string)
    ensures !WellQuoted(Outside, Middle(stamp) + rest)
  {
    if WellQuoted(Outside, Middle(stamp) + rest) {
      var end := QUOTE + (TEXT_FIELD + rest);
      FieldsPlain();
      assert Middle(stamp) + rest == QUOTE + (STAMP_FIELD + (Escape(stamp) + end));
      KeyFromOutside("ts", Escape(stamp) + end);
      EscapedFromOutside(stamp, end);
      KeyFromOutside("text", rest);
      TextKeyRefused(QUOTE + (": " + (QUOTE + rest)));
    }
  }

  /** Text that a reader sees outside a literal cannot be followed by the fields of a record. */
  lemma MiddleIsDead(u: string, stamp: string, rest: string)
    ensures !WellQuoted(Outside, Escape(u) + (Middle(stamp) + rest))
  {
    if WellQuoted(Outside, Escape(u) + (Middle(stamp) + rest)) {
      EscapedFromOutside(u, Middle(stamp) + rest);
      MiddleFromOutside(stamp, rest);
    }
  }

  // ---------------------------------------------------------------- the lines of a record

  predicate AllDead(lines: seq<string>) {
    forall line | line in lines :: Dead(line)
  }

  lemma LineUnbroken(s: string)
    requires IsLine(s)
    ensures BreakAt(s) == |s|
    ensures s != [] ==> SplitLines(s) == [s]
  {
    assert forall k | 0 <= k < |s| :: s[k] in s;
    assert s[..|s|] == s;
  }

  lemma {:induction false} BreakAfter(a: string, c: char, b: string)
    requires IsLine(a) && IsLineBreak(c)
    ensures BreakAt(a + ([c] + b)) == |a|
  {
    var s := a + ([c] + b);
    if a == [] {
      assert s[0] == c;
    } else {
      assert a[0] in a && s[0] == a[0];
      assert s[1..] == a[1..] + ([c] + b);
      BreakAfter(a[1..], c, b);
    }
  }

  lemma SplitAtSeparator(a: string, c: char, b: string)
    requires IsLine(a) && SplitsRecord(c)
    ensures SplitLines(a + ([c] + b)) == [a] + SplitLines(b)
  {
    var s := a + ([c] + b);
    BreakAfter(a, c, b);
    assert s[..|a|] == a && s[|a|] == c && s[|a| + 1..] == b;
  }

  lemma Regroup(a: string, b: string, c: string)
    ensures a + b + c == a + (b + c)
  {
  }

  lemma EscapeFirst(c: char, v: string)
    ensures Escape([c] + v) == EscapeChar(c) + Escape(v)
  {
    assert ([c] + v)[1..] == v;
  }

  /** One more character of escaped text moves from what follows a piece into the piece. */
  lemma EscapeCons(piece: string, c: char, v: string, rest: string)
    ensures piece + (Escape([c] + v) + rest) == piece + EscapeChar(c) + (Escape(v) + rest)
    ensures piece + Escape([c] + v) == piece + EscapeChar(c) + Escape(v)
  {
    EscapeFirst(c, v);
    Regroup(EscapeChar(c), Escape(v), rest);
    Regroup(piece, EscapeChar(c), Escape(v) + rest);
    Regroup(piece, EscapeChar(c), Escape(v));
  }

  lemma OpenNext(piece: string, c: char)
    requires Open(piece)
    ensures Open(piece + EscapeChar(c))
  {
    forall v
      ensures Dead(piece + EscapeChar(c) + Escape(v))
    {
      EscapeCons(piece, c, v, []);
    }
  }

  lemma NeverEndsNext(piece: string, c: char)
    requires NeverEnds(piece)
    ensures NeverEnds(piece + EscapeChar(c))
  {
    forall v
      ensures Dead(piece + EscapeChar(c) + (Escape(v) + RECORD_END))
    {
      EscapeCons(piece, c, v, RECORD_END);
    }
  }

  lemma OpenIsDead(piece: string)
    requires Open(piece)
    ensures Dead(piece)
  {
    assert Dead(piece + Escape([]));
    assert piece + Escape([]) == piece;
  }

  lemma LineAppend(a: string, b: string)
    ensures IsLine(a + b) <==> IsLine(a) && IsLine(b)
  {
    assert forall c | c in a :: c in a + b;
    assert forall c | c in b :: c in a + b;
  }

  lemma PieceEnds(piece: string)
    requires IsLine(piece) && NeverEnds(piece)
    ensures AllDead(SplitLines(piece + (Escape([]) + RECORD_END)))
  {
    var line := piece + (Escape([]) + RECORD_END);
    assert Dead(line);
    LineAppend(piece, Escape([]) + RECORD_END);
    LineUnbroken(line);
  }

  lemma SeparatorStays(piece: string, c: char, text: string, rest: string)
    requires SplitsRecord(c)
    ensures piece + (Escape([c] + text) + rest) == piece + ([c] + (Escape(text) + rest))
  {
    EscapeFirst(c, text);
    Regroup([c], Escape(text), rest);
  }

  lemma StartEmpty(s: string)
    ensures [] + s == s
  {
  }

  /** At a separator the piece becomes a line, and the next piece starts empty. */
  lemma PieceBreaks(piece: string, c: char, text: string, rest: string)
    requires IsLine(piece) && Open(piece) && SplitsRecord(c)
    requires AllDead(SplitLines(Escape(text) + rest))
    ensures AllDead(SplitLines(piece + (Escape([c] + text) + rest)))
  {
    SeparatorStays(piece, c, text, rest);
    SplitAtSeparator(piece, c, Escape(text) + rest);
    OpenIsDead(piece);
  }

  /** The lines that the rest of the text makes, behind a piece of line that is already there. */
  lemma {:induction false} TextPiecesDead(piece: string, text: string)
    requires IsLine(piece) && Open(piece)
    requires HasNoSeparator(text) ==> NeverEnds(piece)
    ensures AllDead(SplitLines(piece + (Escape(text) + RECORD_END)))
    decreases text
  {
    if text == [] {
      PieceEnds(piece);
    } else {
      var c, rest := text[0], text[1..];
      assert text == [c] + rest;
      if SplitsRecord(c) {
        FreshPieceOpen();
        TextPiecesDead([], rest);
        StartEmpty(Escape(rest) + RECORD_END);
        PieceBreaks(piece, c, rest, RECORD_END);
      } else {
        OpenNext(piece, c);
        if HasNoSeparator(rest) {
          NeverEndsNext(piece, c);
        }
        LineAppend(piece, EscapeChar(c));
        TextPiecesDead(piece + EscapeChar(c), rest);
        EscapeCons(piece, c, rest, RECORD_END);
      }
    }
  }

  /** What follows the id in a record. */
  function AfterId(stamp: string, text: string): string {
    Middle(stamp) + (Escape(text) + RECORD_END)
  }

  lemma MiddleIsLine(stamp: string)
    requires HasNoSeparator(stamp)
    ensures IsLine(Middle(stamp))
  {
    EscapedIsLine(stamp);
    FieldsAreLines();
    LineAppend(QUOTE, TEXT_FIELD);
    LineAppend(Escape(stamp), QUOTE + TEXT_FIELD);
    LineAppend(STAMP_FIELD, Escape(stamp) + (QUOTE + TEXT_FIELD));
    LineAppend(QUOTE, STAMP_FIELD + (Escape(stamp) + (QUOTE + TEXT_FIELD)));
  }

  lemma FieldsAreLines()
    ensures IsLine(QUOTE) && IsLine(ID_FIELD) && IsLine(STAMP_FIELD) && IsLine(TEXT_FIELD) && IsLine(RECORD_END)
  {
  }

  lemma NoSeparatorCons(s: string)
    requires s != []
    ensures HasNoSeparator(s) <==> !SplitsRecord(s[0]) && HasNoSeparator(s[1..])
  {
    assert s == [s[0]] + s[1..];
  }

  lemma {:induction false} EscapedIsLine(s: string)
    ensures IsLine(Escape(s)) <==> HasNoSeparator(s)
  {
    if s != [] {
      EscapedIsLine(s[1..]);
      LineAppend(EscapeChar(s[0]), Escape(s[1..]));
      NoSeparatorCons(s);
    }
  }

  /** A piece that began inside the id is dead however it goes on behind the id. */
  lemma SpanDead(u: string, stamp: string)
    ensures Open(Escape(u) + Middle(stamp)) && NeverEnds(Escape(u) + Middle(stamp))
  {
    forall v
      ensures Dead(Escape(u) + Middle(stamp) + Escape(v))
      ensures Dead(Escape(u) + Middle(stamp) + (Escape(v) + RECORD_END))
    {
      Regroup(Escape(u), Middle(stamp), Escape(v));
      Regroup(Escape(u), Middle(stamp), Escape(v) + RECORD_END);
      MiddleIsDead(u, stamp, Escape(v));
      MiddleIsDead(u, stamp, Escape(v) + RECORD_END);
    }
  }

  lemma {:induction false} EscapeSnoc(u: string, c: char)
    ensures Escape(u + [c]) == Escape(u) + EscapeChar(c)
  {
    if u == [] {
      assert u + [c] == [c] && [c][1..] == [];
    } else {
      assert (u + [c])[0] == u[0] && (u + [c])[1..] == u[1..] + [c];
      EscapeSnoc(u[1..], c);
      AppendTwice(EscapeChar(u[0]), Escape(u[1..]), EscapeChar(c));
    }
  }

  lemma SpanLinesDead(u: string, stamp: string, text: string)
    requires HasNoSeparator(u) && HasNoSeparator(stamp)
    ensures AllDead(SplitLines(Escape(u) + AfterId(stamp, text)))
  {
    EscapedIsLine(u);
    MiddleIsLine(stamp);
    SpanDead(u, stamp);
    LineAppend(Escape(u), Middle(stamp));
    TextPiecesDead(Escape(u) + Middle(stamp), text);
    Regroup(Escape(u), Middle(stamp), Escape(text) + RECORD_END);
  }

  /** Behind a separator in the id: the lines of the rest of the id and of the record. */
  lemma {:induction false} IdRestDead(u: string, id: string, stamp: string, text: string)
    requires HasNoSeparator(u) && HasNoSeparator(stamp)
    ensures AllDead(SplitLines(Escape(u) + (Escape(id) + AfterId(stamp, text))))
    decreases id
  {
    if id == [] {
      SpanLinesDead(u, stamp, text);
      StartEmpty(AfterId(stamp, text));
    } else {
      var c, rest := id[0], id[1..];
      assert id == [c] + rest;
      if SplitsRecord(c) {
        EscapedIsLine(u);
        EscapedOpen(u);
        IdRestDead([], rest, stamp, text);
        StartEmpty(Escape(rest) + AfterId(stamp, text));
        PieceBreaks(Escape(u), c, rest, AfterId(stamp, text));
      } else {
        EscapeSnoc(u, c);
        IdRestDead(u + [c], rest, stamp, text);
        EscapeCons(Escape(u), c, rest, AfterId(stamp, text));
      }
    }
  }

  lemma {:induction false} EscapedOpen(u: string)
    ensures Open(Escape(u))
  {
    FreshPieceOpen();
    if u == [] {
    } else {
      var init, c := u[..|u| - 1], u[|u| - 1];
      assert u == init + [c];
      EscapedOpen(init);
      EscapeSnoc(init, c);
      OpenNext(Escape(init), c);
    }
  }

  /** The lines of a record whose id has a separator, behind a first piece of line. */
  lemma {:induction false} IdPiecesDead(piece: string, id: string, stamp: string, text: string)
    requires IsLine(piece) && Open(piece) && !HasNoSeparator(id) && HasNoSeparator(stamp)
    ensures AllDead(SplitLines(piece + (Escape(id) + AfterId(stamp, text))))
    decreases id
  {
    var c, rest := id[0], id[1..];
    assert id == [c] + rest;
    if SplitsRecord(c) {
      IdRestDead([], rest, stamp, text);
      StartEmpty(Escape(rest) + AfterId(stamp, text));
      PieceBreaks(piece, c, rest, AfterId(stamp, text));
    } else {
      OpenNext(piece, c);
      LineAppend(piece, EscapeChar(c));
      IdPiecesDead(piece + EscapeChar(c), rest, stamp, text);
      EscapeCons(piece, c, rest, AfterId(stamp, text));
    }
  }

  lemma TextOpens(id: string, stamp: string)
    ensures StateAfter(Outside, ID_FIELD + (Escape(id) + Middle(stamp))) == Inside
  {
    FieldsOpen();
    StateAppend(Outside, ID_FIELD, Escape(id) + Middle(stamp));
    StateAppend(Inside, Escape(id), Middle(stamp));
    EscapedStaysInside(id);
    MiddleOpens(stamp);
  }

  /** No reader finds anything in the lines that a record with a separator falls apart into. */
  lemma SplitRecordDead(w: Written)
    requires !Unsplit(w) && HasNoSeparator(w.stamp)
    ensures AllDead(SplitLines(Encode(w.id, w.stamp, w.text)))
  {
    FieldsAreLines();
    if HasNoSeparator(w.id) {
      var piece := ID_FIELD + (Escape(w.id) + Middle(w.stamp));
      EscapedIsLine(w.id);
      MiddleIsLine(w.stamp);
      LineAppend(Escape(w.id), Middle(w.stamp));
      LineAppend(ID_FIELD, Escape(w.id) + Middle(w.stamp));
      TextOpens(w.id, w.stamp);
      InsideIsOpen(piece);
      TextPiecesDead(piece, w.text);
      FiveParts(ID_FIELD, Escape(w.id), Middle(w.stamp), Escape(w.text) + RECORD_END);
    } else {
      FieldsOpen();
      InsideIsOpen(ID_FIELD);
      IdPiecesDead(ID_FIELD, w.id, w.stamp, w.text);
    }
  }

  lemma FiveParts(a: string, b: string, c: string, d: string)
    ensures a + (b + c) + d == a + (b + (c + d))
  {
  }

  // ---------------------------------------------------------------- the lines of the file

  function RecordsFile(ws: seq<Written>): string {
    Unlines(EncodeAll(ws))
  }

  lemma EncodeStripped(w: Written)
    ensures var s := Encode(w.id, w.stamp, w.text);
      s != [] && Stripped(s) && !IsLineBreak(s[|s| - 1])
  {
    var s := Encode(w.id, w.stamp, w.text);
    assert s[0] == ID_FIELD[0] == '{' && s[|s| - 1] == RECORD_END[1] == '}';
  }

  lemma SplitOneLine(a: string, b: string)
    requires IsLine(a)
    ensures SplitLines(a + ("\n" + b)) == [a] + SplitLines(b)
  {
    var s := a + ("\n" + b);
    BreakAfter(a, '\n', b);
    assert s[..|a|] == a && s[|a|] == '\n' && s[|a| + 1..] == b;
  }

  /** The text after the boundary `c`, which takes a line feed with it if it is a carriage return. */
  function Beyond(c: char, tail: string): string {
    if c == '\r' && tail != [] && tail[0] == '\n' then tail[1..] else tail
  }

  lemma AfterBreakAt(s: string, first: string, c: char, tail: string)
    requires s == first + ([c] + tail) && IsLine(first) && IsLineBreak(c)
    ensures s[..BreakAt(s)] == first && AfterBreak(s) == Beyond(c, tail)
  {
    var k := |first|;
    BreakAfter(first, c, tail);
    assert s[k] == c && s[k + 1..] == tail;
    if tail != [] {
      assert s[k + 1] == tail[0] && s[k + 2..] == tail[1..];
    }
  }

  lemma SplitAtBreak(first: string, c: char, tail: string)
    requires IsLine(first) && IsLineBreak(c)
    ensures SplitLines(first + ([c] + tail)) == [first] + SplitLines(Beyond(c, tail))
  {
    AfterBreakAt(first + ([c] + tail), first, c, tail);
  }

  lemma BeyondNextLine(c: char, tail: string, b: string)
    requires tail != [] && tail[|tail| - 1] != '\n'
    ensures Beyond(c, tail + ("\n" + b)) == Beyond(c, tail) + ("\n" + b)
    ensures Beyond(c, tail) != [] && Beyond(c, tail)[|Beyond(c, tail)| - 1] == tail[|tail| - 1]
  {
    assert (tail + ("\n" + b))[1..] == tail[1..] + ("\n" + b);
  }

  /** A text that does not end in a line boundary keeps its lines when more text follows on the next line. */
  lemma {:induction false} SplitNextLine(a: string, b: string)
    requires a != [] && !IsLineBreak(a[|a| - 1])
    ensures SplitLines(a + ("\n" + b)) == SplitLines(a) + SplitLines(b)
    decreases |a|
  {
    if BreakAt(a) == |a| {
      assert a[..|a|] == a;
      LineUnbroken(a);
      SplitOneLine(a, b);
    } else {
      var first, c, tail := FirstBreak(a);
      BeyondNextLine(c, tail, b);
      SplitNextLine(Beyond(c, tail), b);
      SplitInside(first, c, tail, b);
    }
  }

  lemma FirstBreak(a: string) returns (first: string, c: char, tail: string)
    requires a != [] && !IsLineBreak(a[|a| - 1]) && BreakAt(a) < |a|
    ensures a == first + ([c] + tail) && |tail| < |a|
    ensures IsLine(first) && IsLineBreak(c)
    ensures tail != [] && tail[|tail| - 1] == a[|a| - 1]
  {
    var k := BreakAt(a);
    first, c, tail := a[..k], a[k], a[k + 1..];
    TakeApart(a, k);
  }

  lemma TakeApart(a: string, k: nat)
    requires k < |a|
    ensures a == a[..k] + ([a[k]] + a[k + 1..])
  {
  }

  lemma SplitInside(first: string, c: char, tail: string, b: string)
    requires IsLine(first) && IsLineBreak(c) && tail != [] && tail[|tail| - 1] != '\n'
    requires SplitLines(Beyond(c, tail) + ("\n" + b)) == SplitLines(Beyond(c, tail)) + SplitLines(b)
    ensures SplitLines(first + ([c] + tail) + ("\n" + b)) == SplitLines(first + ([c] + tail)) + SplitLines(b)
  {
    var more := "\n" + b;
    SplitAtBreak(first, c, tail);
    SplitAtBreak(first, c, tail + more);
    Regroup([c], tail, more);
    Regroup(first, [c] + tail, more);
    BeyondNextLine(c, tail, b);
    KeepFirst(first, SplitLines(Beyond(c, tail)), SplitLines(b));
  }

  lemma KeepFirst(first: string, a: seq<string>, b: seq<string>)
    ensures [first] + (a + b) == [first] + a + b
  {
  }

  /** The lines of all records, as they fall apart. */
  function RecordLines(ws: seq<Written>): seq<string> {
    if ws == [] then [] else SplitLines(Encode(ws[0].id, ws[0].stamp, ws[0].text)) + RecordLines(ws[1..])
  }

  lemma {:induction false} SplitFile(ws: seq<Written>)
    ensures SplitLines(RecordsFile(ws)) == RecordLines(ws)
  {
    if ws != [] {
      var first, rest := Encode(ws[0].id, ws[0].stamp, ws[0].text), RecordsFile(ws[1..]);
      EncodeStripped(ws[0]);
      SplitNextLine(first, rest);
      FileCons(ws);
      SplitFile(ws[1..]);
    }
  }

  lemma FileCons(ws: seq<Written>)
    requires ws != []
    ensures RecordsFile(ws) == Encode(ws[0].id, ws[0].stamp, ws[0].text) + ("\n" + RecordsFile(ws[1..]))
  {
    UnlinesCons(Encode(ws[0].id, ws[0].stamp, ws[0].text), EncodeAll(ws[1..]));
  }

  lemma UnlinesCons(line: string, rest: seq<string>)
    ensures Unlines([line] + rest) == line + ("\n" + Unlines(rest))
  {
    assert ([line] + rest)[1..] == rest;
    Regroup(line, "\n", Unlines(rest));
  }

  predicate AreRecords(records: seq<string>) {
    forall r | r in records :: r != [] && Stripped(r)
  }

  lemma {:induction false} JoinEnds(lines: seq<string>)
    requires lines != [] && AreRecords(lines)
    ensures Join("\n", lines) != [] && Stripped(Join("\n", lines))
  {
    assert lines[0] in lines;
    if |lines| > 1 {
      assert forall l | l in lines[1..] :: l in lines;
      JoinEnds(lines[1..]);
      var s, rest := Join("\n", lines), Join("\n", lines[1..]);
      assert s[|s| - 1] == rest[|rest| - 1];
    }
  }

  lemma StripTerminated(s: string)
    requires s != [] && Stripped(s)
    ensures Strip(s + "\n") == s
  {
    var t := s + "\n";
    assert t[..|t| - 1] == s;
    assert LStrip(t) == t && RStrip(t) == RStrip(s);
    StripShape(s);
  }

  lemma EncodedAreRecords(ws: seq<Written>)
    ensures AreRecords(EncodeAll(ws))
  {
    forall r | r in EncodeAll(ws)
      ensures r != [] && Stripped(r)
    {
      var i :| 0 <= i < |ws| && EncodeAll(ws)[i] == r;
      EncodeStripped(ws[i]);
    }
  }

  /** A final newline makes no line. */
  lemma FinalNewline(s: string)
    requires s != [] && !IsLineBreak(s[|s| - 1])
    ensures SplitLines(s + "\n") == SplitLines(s)
  {
    SplitNextLine(s, []);
    assert s + ("\n" + []) == s + "\n" && SplitLines(s) + [] == SplitLines(s);
  }

  lemma StripRecords(records: seq<string>)
    requires records != [] && AreRecords(records)
    ensures Strip(Unlines(records)) == Join("\n", records)
    ensures SplitLines(Strip(Unlines(records))) == SplitLines(Unlines(records))
  {
    var content := Join("\n", records);
    JoinTerminated(records);
    JoinEnds(records);
    StripTerminated(content);
    LastIsNoBreak(content);
    FinalNewline(content);
  }

  /** Stripping the file only takes its final newline. */
  lemma FileLinesOf(ws: seq<Written>)
    ensures FileLines(RecordsFile(ws)) == NonBlank(RecordLines(ws))
  {
    SplitFile(ws);
    if ws == [] {
      assert Strip([]) == [];
    } else {
      EncodedAreRecords(ws);
      StripRecords(EncodeAll(ws));
    }
  }

  lemma LastIsNoBreak(s: string)
    requires s != [] && Stripped(s)
    ensures !IsLineBreak(s[|s| - 1])
  {
  }

  lemma {:induction false} NonBlankAppend(a: seq<string>, b: seq<string>)
    ensures NonBlank(a + b) == NonBlank(a) + NonBlank(b)
  {
    if a == [] {
      assert a + b == b;
    } else {
      var first := if Strip(a[0]) == [] then [] else [Strip(a[0])];
      assert (a + b)[0] == a[0] && (a + b)[1..] == a[1..] + b;
      NonBlankAppend(a[1..], b);
      AppendTwice(first, NonBlank(a[1..]), NonBlank(b));
    }
  }

  lemma AppendTwice<T>(a: seq<T>, b: seq<T>, c: seq<T>)
    ensures a + (b + c) == a + b + c
  {
  }

  lemma {:induction false} ReadAppend(reader: Reader, a: seq<string>, b: seq<string>)
    ensures Read(reader, a + b) == Read(reader, a) + Read(reader, b)
  {
    if a == [] {
      assert a + b == b;
    } else {
      assert (a + b)[1..] == a[1..] + b;
      ReadAppend(reader, a[1..], b);
    }
  }

  // ---------------------------------------------------------------- when records read back

  lemma {:induction false} NonBlankLines(lines: seq<string>)
    requires AreLines(lines)
    ensures AreLines(NonBlank(lines))
    ensures AreRecords(lines) ==> NonBlank(lines) == lines
  {
    if lines != [] {
      assert lines[0] in lines;
      assert forall l | l in lines[1..] :: l in lines;
      StripShape(lines[0]);
      NonBlankLines(lines[1..]);
    }
  }

  /** The written records read back as the same lines exactly when none of them holds a line boundary. */
  lemma RecordsReadBackIff(records: seq<string>)
    requires records != [] && AreRecords(records)
    ensures FileLines(Unlines(records)) == records <==> AreLines(records)
  {
    StripRecords(records);
    NonBlankLines(SplitLines(Unlines(records)));
    if AreLines(records) {
      SplitUnlines(records);
    }
  }

  /** A record is one line exactly when neither id nor text has a separator that JSON leaves alone. */
  lemma EncodedIsLineIff(w: Written)
    requires HasNoSeparator(w.stamp)
    ensures IsLine(Encode(w.id, w.stamp, w.text)) <==> Unsplit(w)
  {
    EscapedIsLine(w.id);
    EscapedIsLine(w.text);
    MiddleIsLine(w.stamp);
    FieldsAreLines();
    LineAppend(Escape(w.text), RECORD_END);
    LineAppend(Middle(w.stamp), Escape(w.text) + RECORD_END);
    LineAppend(Escape(w.id), Middle(w.stamp) + (Escape(w.text) + RECORD_END));
    LineAppend(ID_FIELD, Escape(w.id) + (Middle(w.stamp) + (Escape(w.text) + RECORD_END)));
  }

  predicate StampsPlain(ws: seq<Written>) {
    forall i | 0 <= i < |ws| :: HasNoSeparator(ws[i].stamp)
  }

  predicate AllUnsplit(ws: seq<Written>) {
    forall i | 0 <= i < |ws| :: Unsplit(ws[i])
  }

  /**
   * A drain finds the records that were written, line for line, if and only if no id and no text
   * has a next-line, line-separator or paragraph-separator character.
   */
  lemma MailboxReadsBackIff(ws: seq<Written>)
    requires ws != [] && StampsPlain(ws)
    ensures FileLines(RecordsFile(ws)) == EncodeAll(ws) <==> AllUnsplit(ws)
  {
    var records := EncodeAll(ws);
    EncodedAreRecords(ws);
    RecordsReadBackIff(records);
    forall i | 0 <= i < |ws|
      ensures IsLine(records[i]) <==> Unsplit(ws[i])
    {
      EncodedIsLineIff(ws[i]);
    }
    AreLinesAt(records);
  }

  lemma AreLinesAt(lines: seq<string>)
    ensures AreLines(lines) <==> forall i | 0 <= i < |lines| :: IsLine(lines[i])
  {
  }

  // ---------------------------------------------------------------- what is left of a split record

  lemma {:induction false} SpaceKeepsQuoted(q: State, s: string, c: char)
    requires WellQuoted(q, s) && IsSpace(c)
    ensures WellQuoted(q, s + [c])
    decreases s
  {
    if s == [] {
      assert [c][1..] == [] && s + [c] == [c];
    } else {
      assert (s + [c])[1..] == s[1..] + [c];
      SpaceKeepsQuoted(Next(q, s[0]), s[1..], c);
    }
  }

  lemma {:induction false} RStripQuoted(q: State, s: string)
    requires WellQuoted(q, RStrip(s))
    ensures WellQuoted(q, s)
    decreases |s|
  {
    if s != [] && IsSpace(s[|s| - 1]) {
      var init := s[..|s| - 1];
      RStripQuoted(q, init);
      SpaceKeepsQuoted(q, init, s[|s| - 1]);
      assert s == init + [s[|s| - 1]];
    }
  }

  lemma {:induction false} LStripQuoted(s: string)
    requires WellQuoted(Outside, LStrip(s))
    ensures WellQuoted(Outside, s)
  {
    if s != [] && IsSpace(s[0]) {
      LStripQuoted(s[1..]);
    }
  }

  lemma StripDead(line: string)
    requires Dead(line)
    ensures Dead(Strip(line))
  {
    if WellQuoted(Outside, Strip(line)) {
      RStripQuoted(Outside, LStrip(line));
      LStripQuoted(line);
    }
    if '"' !in line {
      LStripShape(line);
      var l := LStrip(line);
      assert l == line[|line| - |l|..];
      assert Strip(line) <= l;
    }
  }

  lemma {:induction false} NonBlankDead(lines: seq<string>)
    requires AllDead(lines)
    ensures AllDead(NonBlank(lines))
  {
    if lines != [] {
      assert lines[0] in lines;
      StripDead(lines[0]);
      assert forall l | l in lines[1..] :: l in lines;
      NonBlankDead(lines[1..]);
    }
  }
}
