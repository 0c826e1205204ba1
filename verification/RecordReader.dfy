/** A reader for the records that the mailbox writer makes; every other line is malformed to it. */
module RecordReader {
  import opened Options
  import opened Text
  import opened JsonRepair
  import opened MailboxFile

  function HexValue(c: char): (v: Option<int>)
    ensures v != None ==> 0 <= v.value < 16 && c != '"' && c != '\\'
  {
    if '0' <= c <= '9' then Some((c - '0') as int)
    else if 'a' <= c <= 'f' then Some((c - 'a') as int + 10)
    else None
  }

  /** The character that an escape stands for, and the length of the escape. */
  function EscapeAt(s: string): (r: Option<(char, nat)>)
    requires s != [] && s[0] == '\\'
    ensures r != None ==> 2 <= r.value.1 <= |s| && Plain(s[2..r.value.1])
  {
    if |s| < 2 then None
    else match s[1]
      case '"' => Some(('"', 2))
      case '\\' => Some(('\\', 2))
      case '/' => Some(('/', 2))
      case 'n' => Some(('\n', 2))
      case 'r' => Some(('\r', 2))
      case 't' => Some(('\t', 2))
      case 'b' => Some(('\U{08}', 2))
      case 'f' => Some(('\U{0C}', 2))
      case 'u' => ControlAt(s)
      case _ => None
  }

  /** The characters below the space are the only ones that the writer gives by their numbers. */
  function ControlAt(s: string): (r: Option<(char, nat)>)
    requires |s| >= 2
    ensures r != None ==> r.value.1 == 6 <= |s| && Plain(s[2..6])
  {
    if |s| < 6 || s[2] != '0' || s[3] != '0' then None
    else
      var high, low := HexValue(s[4]), HexValue(s[5]);
      if high == None || low == None || high.value > 1 then None
      else
        assert s[2..6] == [s[2], s[3], s[4], s[5]];
        Some(((16 * high.value + low.value) as char, 6))
  }

  function Prepend(c: char, r: Option<(string, string)>): Option<(string, string)> {
    match r
    case None => None
    case Some((text, rest)) => Some(([c] + text, rest))
  }

  /** Reads a literal up to its closing quote; returns its text and what follows. */
  function Unescape(s: string): Option<(string, string)>
    decreases |s|
  {
    if s == [] then None
    else if s[0] == '"' then Some(([], s[1..]))
    else if s[0] != '\\' then Prepend(s[0], Unescape(s[1..]))
    else match EscapeAt(s)
      case None => None
      case Some((c, n)) => Prepend(c, Unescape(s[n..]))
  }

  function After(prefix: string, s: string): Option<string> {
    if StartsWith(s, prefix) then Some(s[|prefix|..]) else None
  }

  /** A field's text and what follows its closing quote. */
  function FieldAt(field: string, s: string): Option<(string, string)> {
    match After(field, s)
    case None => None
    case Some(rest) => Unescape(rest)
  }

  function ReadRecord(line: string): Entry {
    match FieldAt(ID_FIELD, line)
    case None => Malformed
    case Some((id, afterId)) =>
      match FieldAt(STAMP_FIELD, afterId)
      case None => Malformed
      case Some((_, afterStamp)) =>
        match FieldAt(TEXT_FIELD, afterStamp)
        case None => Malformed
        case Some((text, end)) => if end == "}" then Entry(id, text) else Malformed
  }

  // ---------------------------------------------------------------- reading back what was written

  lemma HexDigitRead(d: int)
    requires 0 <= d < 16
    ensures HexValue(HexDigit(d)) == Some(d)
  {
  }

  lemma ControlRead(c: char, tail: string)
    requires c < ' '
    ensures var s := ['\\', 'u', '0', '0', HexDigit(c as int / 16), HexDigit(c as int % 16)] + tail;
      ControlAt(s) == Some((c, 6)) && s[6..] == tail
  {
    HexDigitRead(c as int / 16);
    HexDigitRead(c as int % 16);
  }

  lemma EscapeRead(s: string, c: char, n: nat)
    requires s != [] && s[0] == '\\' && EscapeAt(s) == Some((c, n))
    ensures Unescape(s) == Prepend(c, Unescape(s[n..]))
  {
  }

  lemma ShortEscapeRead(c: char, tail: string)
    requires |EscapeChar(c)| == 2
    ensures EscapeAt(EscapeChar(c) + tail) == Some((c, 2))
  {
    var s := EscapeChar(c) + tail;
    assert s[0] == EscapeChar(c)[0] && s[1] == EscapeChar(c)[1];
  }

  lemma CharRead(c: char, tail: string)
    ensures Unescape(EscapeChar(c) + tail) == Prepend(c, Unescape(tail))
  {
    var s := EscapeChar(c) + tail;
    if EscapeChar(c) == [c] {
      assert s[1..] == tail;
    } else if |EscapeChar(c)| == 2 {
      ShortEscapeRead(c, tail);
      EscapeRead(s, c, 2);
      assert s[2..] == tail;
    } else {
      ControlRead(c, tail);
      EscapeRead(s, c, 6);
    }
  }

  lemma {:induction false} TextRead(text: string, rest: string)
    ensures Unescape(Escape(text) + (QUOTE + rest)) == Some((text, rest))
  {
    var tail := QUOTE + rest;
    if text == [] {
      StartEmpty(tail);
      assert tail[1..] == rest;
    } else {
      Regroup(EscapeChar(text[0]), Escape(text[1..]), tail);
      CharRead(text[0], Escape(text[1..]) + tail);
      TextRead(text[1..], rest);
      assert [text[0]] + text[1..] == text;
    }
  }

  lemma FieldRead(field: string, text: string, rest: string)
    ensures FieldAt(field, field + (Escape(text) + (QUOTE + rest))) == Some((text, rest))
  {
    var s := field + (Escape(text) + (QUOTE + rest));
    assert s[..|field|] == field && s[|field|..] == Escape(text) + (QUOTE + rest);
    TextRead(text, rest);
  }

  /** What was written is read back, whatever the texts hold. */
  lemma RecordReadBack(id: string, stamp: string, text: string)
    ensures ReadRecord(Encode(id, stamp, text)) == Entry(id, text)
  {
    var textField := TEXT_FIELD + (Escape(text) + RECORD_END);
    var stampField := STAMP_FIELD + (Escape(stamp) + (QUOTE + textField));
    MiddleParts(stamp, Escape(text) + RECORD_END);
    FieldRead(ID_FIELD, id, stampField);
    FieldRead(STAMP_FIELD, stamp, textField);
    FieldRead(TEXT_FIELD, text, "}");
  }

  lemma MiddleParts(stamp: string, rest: string)
    ensures Middle(stamp) + rest == QUOTE + (STAMP_FIELD + (Escape(stamp) + (QUOTE + (TEXT_FIELD + rest))))
  {
    Regroup(QUOTE, TEXT_FIELD, rest);
    Regroup(Escape(stamp), QUOTE + TEXT_FIELD, rest);
    Regroup(STAMP_FIELD, Escape(stamp) + (QUOTE + TEXT_FIELD), rest);
    Regroup(QUOTE, STAMP_FIELD + (Escape(stamp) + (QUOTE + TEXT_FIELD)), rest);
  }

  // ---------------------------------------------------------------- every line read is well quoted

  lemma {:induction false} PlainInside(s: string, rest: string)
    requires Plain(s) && WellQuoted(Inside, rest)
    ensures WellQuoted(Inside, s + rest)
    decreases s
  {
    if s == [] {
      StartEmpty(rest);
    } else {
      assert s[0] in s && (s + rest)[1..] == s[1..] + rest;
      PlainInside(s[1..], rest);
    }
  }

  lemma {:induction false} GrammarOutside(s: string, rest: string)
    requires (forall c | c in s :: InGrammar(c) && c != '"') && WellQuoted(Outside, rest)
    ensures WellQuoted(Outside, s + rest)
    decreases s
  {
    if s == [] {
      StartEmpty(rest);
    } else {
      assert s[0] in s && (s + rest)[1..] == s[1..] + rest;
      GrammarOutside(s[1..], rest);
    }
  }

  lemma QuoteQuoted(rest: string)
    ensures WellQuoted(Inside, rest) ==> WellQuoted(Outside, QUOTE + rest)
    ensures WellQuoted(Outside, rest) ==> WellQuoted(Inside, QUOTE + rest)
  {
    assert (QUOTE + rest)[1..] == rest;
  }

  lemma FieldQuoted(before: string, key: string, rest: string)
    requires (forall c | c in before :: InGrammar(c) && c != '"') && Plain(key) && WellQuoted(Inside, rest)
    ensures WellQuoted(Outside, Field(before, key) + rest)
  {
    FieldsPlain();
    var colon := ": " + (QUOTE + rest);
    QuoteQuoted(rest);
    GrammarOutside(": ", QUOTE + rest);
    QuoteQuoted(colon);
    PlainInside(key, QUOTE + colon);
    QuoteQuoted(key + (QUOTE + colon));
    GrammarOutside(before, QUOTE + (key + (QUOTE + colon)));
    FieldParts(before, key, rest);
  }

  lemma FieldParts(before: string, key: string, rest: string)
    ensures Field(before, key) + rest == before + (QUOTE + (key + (QUOTE + (": " + (QUOTE + rest)))))
  {
    Regroup(": ", QUOTE, rest);
    Regroup(QUOTE, ": " + QUOTE, rest);
    Regroup(key, QUOTE + (": " + QUOTE), rest);
    Regroup(QUOTE, key + (QUOTE + (": " + QUOTE)), rest);
    Regroup(before, QUOTE + (key + (QUOTE + (": " + QUOTE))), rest);
  }

  lemma {:induction false} LiteralQuoted(s: string)
    requires Unescape(s) != None && WellQuoted(Outside, Unescape(s).value.1)
    ensures WellQuoted(Inside, s)
    decreases |s|
  {
    if s[0] == '"' {
    } else if s[0] != '\\' {
      LiteralQuoted(s[1..]);
    } else {
      var n := EscapeAt(s).value.1;
      LiteralQuoted(s[n..]);
      PlainInside(s[2..n], s[n..]);
      assert s[2..n] + s[n..] == s[1..][1..];
    }
  }

  lemma FieldAtQuoted(field: string, before: string, key: string, s: string)
    requires field == Field(before, key) && Plain(key) && forall c | c in before :: InGrammar(c) && c != '"'
    requires FieldAt(field, s) != None && WellQuoted(Outside, FieldAt(field, s).value.1)
    ensures WellQuoted(Outside, s)
  {
    LiteralQuoted(s[|field|..]);
    FieldQuoted(before, key, s[|field|..]);
    assert s == field + s[|field|..];
  }

  lemma ReadIsQuoted(line: string)
    requires ReadRecord(line) != Malformed
    ensures WellQuoted(Outside, line)
  {
    FieldsPlain();
    var afterId := FieldAt(ID_FIELD, line).value.1;
    var afterStamp := FieldAt(STAMP_FIELD, afterId).value.1;
    assert ("}")[1..] == [];
    FieldAtQuoted(TEXT_FIELD, ", ", "text", afterStamp);
    FieldAtQuoted(STAMP_FIELD, ", ", "ts", afterId);
    FieldAtQuoted(ID_FIELD, "{", "msg_id", line);
  }

  lemma ReadHasQuote(line: string)
    requires ReadRecord(line) != Malformed
    ensures '"' in line
  {
    assert line[..|ID_FIELD|] == ID_FIELD;
    assert ID_FIELD[1] == '"' && line[1] == '"';
  }

  /** This reader meets what the mailbox needs of one. */
  lemma RecordReaderReadsJson()
    ensures ReadsJson(ReadRecord)
  {
    forall id, stamp, text
      ensures ReadRecord(Encode(id, stamp, text)) == Entry(id, text)
    {
      RecordReadBack(id, stamp, text);
    }
    forall line
      ensures !WellQuoted(Outside, line) || '"' !in line ==> ReadRecord(line) == Malformed
    {
      if ReadRecord(line) != Malformed {
        ReadIsQuoted(line);
        ReadHasQuote(line);
      }
    }
  }
}
