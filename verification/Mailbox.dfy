/** The per-task mailbox: an append-only file that a worker drains once a round. */
module Mailbox {
  import opened Text
  import opened MailboxFile

  // ---------------------------------------------------------------- specification

  /** The texts a drain returns and the seen set it leaves. */
  function Drained(log: Log, seen: set<string>): (seq<string>, set<string>)
    decreases |log|
  {
    if log == [] then ([], seen)
    else match log[0]
      case Malformed => Drained(log[1..], seen)
      case Entry(id, text) =>
        if id != [] && id in seen then Drained(log[1..], seen)
        else
          var (texts, seen') := Drained(log[1..], if id != [] then seen + {id} else seen);
          (if text != [] then [text] + texts else texts, seen')
  }

  /** A string of the program; with lone surrogates, which UTF-8 cannot encode, it is given by its code points. */
  datatype PyString = Scalars(chars: string) | WithSurrogates(codes: seq<nat>)

  const EMPTY := Scalars([])

  /** What a caller asks to be written. */
  datatype Request = Request(id: PyString, stamp: string, text: PyString)

  /** The request with the id that is written. */
  function Requested(text: PyString, msgId: PyString, freshId: string, stamp: string): Request {
    Request(if msgId != EMPTY then msgId else Scalars(freshId), stamp, text)
  }

  predicate Encodable(r: Request) {
    r.id.Scalars? && r.text.Scalars?
  }

  /** What the request adds to the file: nothing if UTF-8 cannot encode it, for the error is swallowed. */
  function Addition(r: Request): string {
    if Encodable(r) then Encode(r.id.chars, r.stamp, r.text.chars) + "\n" else []
  }

  class SeenIds {
    var ids: set<string>

    constructor ()
      ensures ids == {}
    {
      ids := {};
    }
  }

  class TaskMailbox {
    /** The content of the mailbox file; without a file it is empty. */
    var file: string

    constructor ()
      ensures file == []
    {
      file := [];
    }

    /** `freshId` is the random id used when the caller gives none, `stamp` the time. */
    method Write(text: PyString, msgId: PyString, freshId: string, stamp: string)
      modifies this
      ensures file == old(file) + Addition(Requested(text, msgId, freshId, stamp))
    {
      var id := if msgId != EMPTY then msgId else Scalars(freshId);
      if id.Scalars? && text.Scalars? {
        file := file + (Encode(id.chars, stamp, text.chars) + "\n");
      } else {
        assert file + [] == file;
      }
    }

    /** Reads the whole file and skips what the caller's set has seen. */
    method Drain(reader: Reader, seen: SeenIds) returns (messages: seq<string>)
      modifies seen
      ensures messages == Drained(LogOf(reader, file), old(seen.ids)).0
      ensures seen.ids == Drained(LogOf(reader, file), old(seen.ids)).1
    {
      messages := [];
      var lines := SplitLines(Strip(file));
      assert lines[0..] == lines;
      StartNone(Drained(LogOf(reader, file), seen.ids));
      for i := 0 to |lines|
        invariant Drained(LogOf(reader, file), old(seen.ids))
          == Ahead(messages, Drained(Read(reader, NonBlank(lines[i..])), seen.ids))
      {
        Turn(reader, lines, i, seen.ids, messages);
        var line := Strip(lines[i]);
        if line == [] {
          continue;
        }
        var entry := reader(line);
        ghost var told, seen' := messages + ToldBy(entry, seen.ids), SeenAfter(entry, seen.ids);
        match entry {
          case Malformed =>
          case Entry(id, text) =>
            if id != [] && id in seen.ids {
              assert messages == told && seen.ids == seen';
              continue;
            }
            if id != [] {
              seen.ids := seen.ids + {id};
            }
            if text != [] {
              messages := messages + [text];
            }
        }
        assert messages == told && seen.ids == seen';
      }
      EndNone(messages, seen.ids);
    }

    /** Without a set of its own the caller sees every message of the file anew. */
    method DrainUnseen(reader: Reader) returns (messages: seq<string>)
      ensures messages == Drained(LogOf(reader, file), {}).0
    {
      var seen := new SeenIds();
      messages := Drain(reader, seen);
    }
  }

  lemma LineStep(reader: Reader, lines: seq<string>, i: nat)
    requires i < |lines|
    ensures var (line, rest) := (Strip(lines[i]), Read(reader, NonBlank(lines[i + 1..])));
      Read(reader, NonBlank(lines[i..])) == if line == [] then rest else [reader(line)] + rest
  {
    assert lines[i..][1..] == lines[i + 1..];
    var line, rest := Strip(lines[i]), NonBlank(lines[i + 1..]);
    assert ([line] + rest)[1..] == rest && [] + rest == rest;
  }

  /** The outcome of a drain that had returned `texts` before the rest of it. */
  function Ahead(texts: seq<string>, rest: (seq<string>, set<string>)): (seq<string>, set<string>) {
    (texts + rest.0, rest.1)
  }

  lemma StartNone(r: (seq<string>, set<string>))
    ensures Ahead([], r) == r
  {
    assert [] + r.0 == r.0;
  }

  lemma EndNone(texts: seq<string>, seen: set<string>)
    ensures Ahead(texts, Drained([], seen)) == (texts, seen)
  {
    assert texts + [] == texts;
  }

  lemma AheadTwice(a: seq<string>, b: seq<string>, r: (seq<string>, set<string>))
    ensures Ahead(a, Ahead(b, r)) == Ahead(a + b, r)
  {
    assert a + (b + r.0) == a + b + r.0;
  }

  /** One turn of the loop over the lines. */
  lemma Turn(reader: Reader, lines: seq<string>, i: nat, seen: set<string>, before: seq<string>)
    requires i < |lines|
    ensures var (line, rest) := (Strip(lines[i]), Read(reader, NonBlank(lines[i + 1..])));
      Ahead(before, Drained(Read(reader, NonBlank(lines[i..])), seen)) ==
        if line == [] then Ahead(before, Drained(rest, seen))
        else Ahead(before + ToldBy(reader(line), seen), Drained(rest, SeenAfter(reader(line), seen)))
  {
    LineStep(reader, lines, i);
    EntryStep(reader(Strip(lines[i])), Read(reader, NonBlank(lines[i + 1..])), seen, before);
  }

  function SeenAfter(entry: Entry, seen: set<string>): set<string> {
    if entry.Malformed? || entry.id == [] || entry.id in seen then seen else seen + {entry.id}
  }

  /** The text that a drain takes from an entry. */
  function ToldBy(entry: Entry, seen: set<string>): seq<string> {
    if entry.Malformed? || (entry.id != [] && entry.id in seen) || entry.text == [] then [] else [entry.text]
  }

  lemma EntryStep(entry: Entry, rest: Log, seen: set<string>, before: seq<string>)
    ensures Drained([entry] + rest, seen) == Ahead(ToldBy(entry, seen), Drained(rest, SeenAfter(entry, seen)))
    ensures Ahead(before, Drained([entry] + rest, seen))
         == Ahead(before + ToldBy(entry, seen), Drained(rest, SeenAfter(entry, seen)))
  {
    var tail := Drained(rest, SeenAfter(entry, seen));
    assert ([entry] + rest)[1..] == rest;
    StartNone(tail);
    AheadTwice(before, ToldBy(entry, seen), tail);
  }

  // ---------------------------------------------------------------- drains of a log

  /** Every entry has an id, as `write_owner_message` sees to. */
  predicate Named(log: Log) {
    forall i | 0 <= i < |log| :: log[i].Entry? && log[i].id != []
  }

  function Ids(log: Log): set<string> {
    set i | 0 <= i < |log| && log[i].Entry? :: log[i].id
  }

  /** The entry is the first with its id, and has something to tell. */
  predicate TellsNew(log: Log, entry: Entry) {
    entry.Entry? && entry.id !in Ids(log) && entry.text != []
  }

  /** The non-empty texts of the first occurrences of each id, in the order of the log. */
  function FirstTexts(log: Log): seq<string> {
    if log == [] then []
    else
      var init, last := log[..|log| - 1], log[|log| - 1];
      FirstTexts(init) + (if TellsNew(init, last) then [last.text] else [])
  }

  lemma FirstTextsSnoc(log: Log, entry: Entry)
    ensures FirstTexts(log + [entry]) == FirstTexts(log) + (if TellsNew(log, entry) then [entry.text] else [])
  {
    assert (log + [entry])[..|log|] == log;
  }

  lemma IdsSnoc(log: Log, entry: Entry)
    ensures Ids(log + [entry]) == Ids(log) + (if entry.Entry? then {entry.id} else {})
  {
    var all := log + [entry];
    assert all[|log|] == entry && forall i | 0 <= i < |log| :: all[i] == log[i];
  }

  lemma {:induction false} DrainedAppend(a: Log, b: Log, seen: set<string>)
    ensures Drained(a + b, seen) == Ahead(Drained(a, seen).0, Drained(b, Drained(a, seen).1))
    decreases |a|
  {
    if a == [] {
      assert a + b == b;
      StartNone(Drained(b, seen));
    } else {
      var entry, rest := a[0], a[1..];
      var seen' := SeenAfter(entry, seen);
      assert a == [entry] + rest && a + b == [entry] + (rest + b);
      EntryStep(entry, rest, seen, []);
      EntryStep(entry, rest + b, seen, []);
      DrainedAppend(rest, b, seen');
      AheadTwice(ToldBy(entry, seen), Drained(rest, seen').0, Drained(b, Drained(rest, seen').1));
    }
  }

  lemma DrainsOne(log: Log, entry: Entry, rest: Log)
    requires entry.Entry? && entry.id != []
    ensures Ahead(FirstTexts(log), Drained([entry] + rest, Ids(log)))
         == Ahead(FirstTexts(log + [entry]), Drained(rest, Ids(log + [entry])))
  {
    EntryStep(entry, rest, Ids(log), FirstTexts(log));
    IdsSnoc(log, entry);
    FirstTextsSnoc(log, entry);
    if entry.id in Ids(log) {
      assert Ids(log) + {entry.id} == Ids(log);
    }
  }

  /** A drain that has seen exactly the ids of some entries returns what the others tell first. */
  lemma {:induction false} DrainsTheRest(log: Log, more: Log)
    requires Named(more)
    ensures Ahead(FirstTexts(log), Drained(more, Ids(log))) == (FirstTexts(log + more), Ids(log + more))
    decreases |more|
  {
    if more == [] {
      assert log + more == log;
      EndNone(FirstTexts(log), Ids(log));
    } else {
      var entry, rest := more[0], more[1..];
      assert more == [entry] + rest && log + more == log + [entry] + rest;
      DrainsOne(log, entry, rest);
      DrainsTheRest(log + [entry], rest);
    }
  }

  lemma {:induction false} SkipsSeen(log: Log, seen: set<string>)
    requires Named(log) && Ids(log) <= seen
    ensures Drained(log, seen) == ([], seen)
    decreases |log|
  {
    if log != [] {
      assert log == [log[0]] + log[1..];
      assert log[0].id in Ids(log);
      assert forall i | 0 <= i < |log| - 1 :: log[1..][i] == log[i + 1];
      SkipsSeen(log[1..], seen);
    }
  }

  /** A drain with the ids of a prefix of the log as its seen set catches up with the whole log. */
  lemma CatchesUp(log: Log, more: Log)
    requires Named(log) && Named(more)
    ensures Ahead(FirstTexts(log), Drained(log + more, Ids(log))) == (FirstTexts(log + more), Ids(log + more))
  {
    DrainedAppend(log, more, Ids(log));
    SkipsSeen(log, Ids(log));
    StartNone(Drained(more, Ids(log)));
    DrainsTheRest(log, more);
  }

  /** An entry without id, as another program might write it, is delivered by every drain. */
  lemma {:induction false} UnnamedRepeats(log: Log, i: nat, seen: set<string>)
    requires i < |log| && log[i].Entry? && log[i].id == [] && log[i].text != []
    ensures log[i].text in Drained(log, seen).0
    decreases |log|
  {
    assert log == [log[0]] + log[1..];
    EntryStep(log[0], log[1..], seen, []);
    if i > 0 {
      UnnamedRepeats(log[1..], i - 1, SeenAfter(log[0], seen));
    }
  }

  // ---------------------------------------------------------------- what survives the file

  /** The entries of the records that are written as one line. */
  function Surviving(ws: seq<Written>): Log {
    if ws == [] then []
    else (if Unsplit(ws[0]) then [Entry(ws[0].id, ws[0].text)] else []) + Surviving(ws[1..])
  }

  lemma {:induction false} DeadLinesDrain(reader: Reader, lines: seq<string>, seen: set<string>)
    requires ReadsJson(reader) && AllDead(lines)
    ensures Drained(Read(reader, lines), seen) == ([], seen)
    decreases |lines|
  {
    if lines != [] {
      assert lines[0] in lines && forall l | l in lines[1..] :: l in lines;
      DeadReads(reader, lines[0]);
      EntryStep(reader(lines[0]), Read(reader, lines[1..]), seen, []);
      DeadLinesDrain(reader, lines[1..], seen);
    }
  }

  /** One record is drained as its entry, or not at all. */
  lemma RecordDrains(reader: Reader, w: Written, seen: set<string>)
    requires ReadsJson(reader) && HasNoSeparator(w.stamp)
    ensures Drained(Read(reader, NonBlank(SplitLines(Encode(w.id, w.stamp, w.text)))), seen)
         == Drained(Surviving([w]), seen)
  {
    var record := Encode(w.id, w.stamp, w.text);
    assert [w][1..] == [] && Surviving([]) == [];
    if Unsplit(w) {
      EncodedIsLineIff(w);
      EncodeStripped(w);
      LineUnbroken(record);
      NonBlankOne(record);
      assert Read(reader, [record]) == [Entry(w.id, w.text)];
    } else {
      SplitRecordDead(w);
      NonBlankDead(SplitLines(record));
      DeadLinesDrain(reader, NonBlank(SplitLines(record)), seen);
    }
  }

  lemma NonBlankOne(line: string)
    requires line != [] && Stripped(line)
    ensures NonBlank([line]) == [line]
  {
    StripShape(line);
    assert [line][1..] == [];
  }

  /** Logs drained alike, one after the other, are drained alike together. */
  lemma DrainedAlike(a: Log, b: Log, a': Log, b': Log, seen: set<string>)
    requires Drained(a, seen) == Drained(a', seen)
    requires Drained(b, Drained(a', seen).1) == Drained(b', Drained(a', seen).1)
    ensures Drained(a + b, seen) == Drained(a' + b', seen)
  {
    DrainedAppend(a, b, seen);
    DrainedAppend(a', b', seen);
  }

  lemma ReadLines(reader: Reader, first: seq<string>, rest: seq<string>)
    ensures Read(reader, NonBlank(first + rest)) == Read(reader, NonBlank(first)) + Read(reader, NonBlank(rest))
  {
    NonBlankAppend(first, rest);
    ReadAppend(reader, NonBlank(first), NonBlank(rest));
  }

  lemma {:induction false} RecordsDrain(reader: Reader, ws: seq<Written>, seen: set<string>)
    requires ReadsJson(reader) && StampsPlain(ws)
    ensures Drained(Read(reader, NonBlank(RecordLines(ws))), seen) == Drained(Surviving(ws), seen)
    decreases |ws|
  {
    if ws != [] {
      var first := SplitLines(Encode(ws[0].id, ws[0].stamp, ws[0].text));
      var rest, one := RecordLines(ws[1..]), Surviving([ws[0]]);
      RecordDrains(reader, ws[0], seen);
      RecordsDrain(reader, ws[1..], Drained(one, seen).1);
      ReadLines(reader, first, rest);
      SurvivingAppend([ws[0]], ws[1..]);
      assert ws == [ws[0]] + ws[1..];
      DrainedAlike(Read(reader, NonBlank(first)), Read(reader, NonBlank(rest)), one, Surviving(ws[1..]), seen);
    }
  }

  lemma {:induction false} SurvivingAppend(a: seq<Written>, b: seq<Written>)
    ensures Surviving(a + b) == Surviving(a) + Surviving(b)
  {
    if a == [] {
      assert a + b == b;
    } else {
      var first := if Unsplit(a[0]) then [Entry(a[0].id, a[0].text)] else [];
      assert (a + b)[0] == a[0] && (a + b)[1..] == a[1..] + b;
      SurvivingAppend(a[1..], b);
      AppendTwice(first, Surviving(a[1..]), Surviving(b));
    }
  }

  /** A drain of the file is a drain of the entries whose records have stayed whole. */
  lemma FileDrains(reader: Reader, ws: seq<Written>, seen: set<string>)
    requires ReadsJson(reader) && StampsPlain(ws)
    ensures Drained(LogOf(reader, RecordsFile(ws)), seen) == Drained(Surviving(ws), seen)
  {
    FileLinesOf(ws);
    RecordsDrain(reader, ws, seen);
  }

  // ---------------------------------------------------------------- runs

  datatype Event =
    | WriteEvent(text: PyString, msgId: PyString, freshId: string, stamp: string)
    | DrainEvent

  /** The file, the worker's seen set and all texts drained so far. */
  datatype State = State(file: string, seen: set<string>, delivered: seq<string>)

  const START := State([], {}, [])

  function RequestOf(e: Event): Request
    requires e.WriteEvent?
  {
    Requested(e.text, e.msgId, e.freshId, e.stamp)
  }

  function Apply(reader: Reader, s: State, e: Event): State {
    match e
    case WriteEvent(_, _, _, _) => s.(file := s.file + Addition(RequestOf(e)))
    case DrainEvent =>
      var (texts, seen') := Drained(LogOf(reader, s.file), s.seen);
      State(s.file, seen', s.delivered + texts)
  }

  function Run(reader: Reader, events: seq<Event>): State {
    if events == [] then START else Apply(reader, Run(reader, events[..|events| - 1]), events[|events| - 1])
  }

  /** What the run was asked to write. */
  function RequestedBy(events: seq<Event>): seq<Request> {
    if events == [] then []
    else
      var init, e := events[..|events| - 1], events[|events| - 1];
      RequestedBy(init) + (if e.WriteEvent? then [RequestOf(e)] else [])
  }

  /** What the run had been asked to write when it last drained. */
  function RequestedAtDrain(events: seq<Event>): seq<Request> {
    if events == [] then []
    else if events[|events| - 1].DrainEvent? then RequestedBy(events)
    else RequestedAtDrain(events[..|events| - 1])
  }

  /** The records that are written. */
  function WrittenFor(requests: seq<Request>): seq<Written> {
    if requests == [] then []
    else
      var init, r := requests[..|requests| - 1], requests[|requests| - 1];
      WrittenFor(init) + (if Encodable(r) then [Written(r.id.chars, r.stamp, r.text.chars)] else [])
  }

  lemma WrittenForSnoc(requests: seq<Request>, r: Request)
    ensures WrittenFor(requests + [r]) ==
      WrittenFor(requests) + (if Encodable(r) then [Written(r.id.chars, r.stamp, r.text.chars)] else [])
  {
    assert (requests + [r])[..|requests|] == requests;
  }

  lemma {:induction false} WrittenForPrefix(a: seq<Request>, b: seq<Request>)
    requires a <= b
    ensures WrittenFor(a) <= WrittenFor(b)
    decreases |b|
  {
    if a == b {
    } else {
      WrittenForPrefix(a, b[..|b| - 1]);
    }
  }

  /** What the run has written, and what it had written when it last drained. */
  function WrittenBy(events: seq<Event>): seq<Written> {
    WrittenFor(RequestedBy(events))
  }

  function DrainedBy(events: seq<Event>): seq<Written> {
    WrittenFor(RequestedAtDrain(events))
  }

  /** Generated ids are not empty, and time stamps hold no separator. */
  predicate Proper(events: seq<Event>) {
    forall i | 0 <= i < |events| && events[i].WriteEvent? :: events[i].freshId != [] && HasNoSeparator(events[i].stamp)
  }

  predicate AllNamed(ws: seq<Written>) {
    forall i | 0 <= i < |ws| :: ws[i].id != []
  }

  lemma {:induction false} SurvivingNamed(ws: seq<Written>)
    requires AllNamed(ws)
    ensures Named(Surviving(ws))
  {
    if ws != [] {
      SurvivingNamed(ws[1..]);
    }
  }

  predicate ProperRequests(requests: seq<Request>) {
    forall i | 0 <= i < |requests| :: requests[i].id != EMPTY && HasNoSeparator(requests[i].stamp)
  }

  lemma {:induction false} RequestsProper(events: seq<Event>)
    requires Proper(events)
    ensures ProperRequests(RequestedBy(events))
    ensures RequestedAtDrain(events) <= RequestedBy(events)
  {
    if events != [] {
      RequestsProper(events[..|events| - 1]);
    }
  }

  lemma {:induction false} WrittenForProper(requests: seq<Request>)
    requires ProperRequests(requests)
    ensures AllNamed(WrittenFor(requests)) && StampsPlain(WrittenFor(requests))
  {
    if requests != [] {
      WrittenForProper(requests[..|requests| - 1]);
    }
  }

  lemma WrittenProper(events: seq<Event>)
    requires Proper(events)
    ensures AllNamed(WrittenBy(events)) && StampsPlain(WrittenBy(events))
    ensures DrainedBy(events) <= WrittenBy(events)
  {
    RequestsProper(events);
    WrittenForProper(RequestedBy(events));
    WrittenForPrefix(RequestedAtDrain(events), RequestedBy(events));
  }

  lemma {:induction false} FileSnoc(ws: seq<Written>, w: Written)
    ensures RecordsFile(ws + [w]) == RecordsFile(ws) + (Encode(w.id, w.stamp, w.text) + "\n")
  {
    var last := Encode(w.id, w.stamp, w.text) + "\n";
    if ws == [] {
      assert ws + [w] == [w] && [w][1..] == [];
      FileCons([w]);
      assert RecordsFile([]) == [] && "\n" + [] == "\n" && [] + last == last;
    } else {
      assert (ws + [w])[0] == ws[0] && (ws + [w])[1..] == ws[1..] + [w];
      FileSnoc(ws[1..], w);
      FileCons(ws);
      FileCons(ws + [w]);
      Regroup("\n", RecordsFile(ws[1..]), last);
      Regroup(Encode(ws[0].id, ws[0].stamp, ws[0].text), "\n" + RecordsFile(ws[1..]), last);
    }
  }

  ghost predicate Delivered(s: State, events: seq<Event>) {
    var told := Surviving(DrainedBy(events));
    s.file == RecordsFile(WrittenBy(events)) && s.seen == Ids(told) && s.delivered == FirstTexts(told)
  }

  /**
   * Over any interleaving of writes and drains with one seen set, all texts drained so far are, in
   * order, the non-empty first texts of each id among the records that could be written and had stayed
   * whole in the file when it was last drained: each once, first in first out.
   */
  lemma {:induction false} ExactlyOnceInOrder(reader: Reader, events: seq<Event>)
    requires ReadsJson(reader) && Proper(events)
    ensures Delivered(Run(reader, events), events)
  {
    if events != [] {
      var init, e := events[..|events| - 1], events[|events| - 1];
      assert events == init + [e];
      ExactlyOnceInOrder(reader, init);
      match e
      case WriteEvent(_, _, _, _) => DeliveredAfterWrite(reader, init, e);
      case DrainEvent => DeliveredAfterDrain(reader, init);
    }
  }

  lemma DeliveredAfterWrite(reader: Reader, init: seq<Event>, e: Event)
    requires e.WriteEvent? && Delivered(Run(reader, init), init)
    ensures Delivered(Run(reader, init + [e]), init + [e])
  {
    assert (init + [e])[..|init|] == init;
    WriteStep(RequestedBy(init), RequestOf(e));
  }

  lemma DeliveredAfterDrain(reader: Reader, init: seq<Event>)
    requires ReadsJson(reader) && Proper(init) && Delivered(Run(reader, init), init)
    ensures Delivered(Run(reader, init + [DrainEvent]), init + [DrainEvent])
  {
    assert (init + [DrainEvent])[..|init|] == init;
    assert RequestedBy(init) + [] == RequestedBy(init);
    WrittenProper(init);
    DrainStep(reader, DrainedBy(init), WrittenBy(init));
  }

  lemma WriteStep(requests: seq<Request>, r: Request)
    ensures RecordsFile(WrittenFor(requests + [r])) == RecordsFile(WrittenFor(requests)) + Addition(r)
  {
    WrittenForSnoc(requests, r);
    if Encodable(r) {
      FileSnoc(WrittenFor(requests), Written(r.id.chars, r.stamp, r.text.chars));
    } else {
      assert WrittenFor(requests) + [] == WrittenFor(requests);
      assert RecordsFile(WrittenFor(requests)) + [] == RecordsFile(WrittenFor(requests));
    }
  }

  /** A drain after a drain of fewer records catches up. */
  lemma DrainStep(reader: Reader, before: seq<Written>, ws: seq<Written>)
    requires ReadsJson(reader) && AllNamed(ws) && StampsPlain(ws) && before <= ws
    ensures var (told, all) := (Surviving(before), Surviving(ws));
      var r := Drained(LogOf(reader, RecordsFile(ws)), Ids(told));
      Ahead(FirstTexts(told), r) == (FirstTexts(all), Ids(all))
  {
    var more := ws[|before|..];
    assert ws == before + more;
    FileDrains(reader, ws, Ids(Surviving(before)));
    SurvivingAppend(before, more);
    SurvivingNamed(before);
    SurvivingNamed(more);
    CatchesUp(Surviving(before), Surviving(more));
  }

  // ---------------------------------------------------------------- when nothing is lost

  /** A string that reaches the reader: UTF-8 can encode it, and no separator splits its record. */
  predicate Keepable(s: PyString) {
    s.Scalars? && HasNoSeparator(s.chars)
  }

  predicate IsKept(r: Request) {
    Keepable(r.id) && Keepable(r.text)
  }

  /** The entries of the requests whose records are written and stay whole. */
  function KeptEntries(requests: seq<Request>): Log {
    if requests == [] then []
    else
      var init, r := requests[..|requests| - 1], requests[|requests| - 1];
      KeptEntries(init) + (if IsKept(r) then [Entry(r.id.chars, r.text.chars)] else [])
  }

  lemma {:induction false} KeptSurvive(requests: seq<Request>)
    ensures Surviving(WrittenFor(requests)) == KeptEntries(requests)
  {
    if requests != [] {
      var init, r := requests[..|requests| - 1], requests[|requests| - 1];
      KeptSurvive(init);
      if Encodable(r) {
        var w := Written(r.id.chars, r.stamp, r.text.chars);
        SurvivingAppend(WrittenFor(init), [w]);
        assert [w][1..] == [] && Surviving([]) == [];
      } else {
        assert WrittenFor(init) + [] == WrittenFor(init) && KeptEntries(init) + [] == KeptEntries(init);
      }
    }
  }

  function RequestIds(requests: seq<Request>): set<PyString> {
    set i | 0 <= i < |requests| :: requests[i].id
  }

  /** The request is the first with its id after the others, and has something to tell. */
  predicate IsNew(requests: seq<Request>, r: Request) {
    r.id !in RequestIds(requests) && r.text != EMPTY
  }

  predicate Tells(requests: seq<Request>, i: nat)
    requires i < |requests|
  {
    IsNew(requests[..i], requests[i])
  }

  /** The non-empty texts of the first request for each id. */
  function FirstTold(requests: seq<Request>): seq<PyString> {
    if requests == [] then []
    else
      var init, r := requests[..|requests| - 1], requests[|requests| - 1];
      FirstTold(init) + (if IsNew(init, r) then [r.text] else [])
  }

  function Lift(texts: seq<string>): (r: seq<PyString>)
    ensures |r| == |texts| && forall i | 0 <= i < |r| :: r[i] == Scalars(texts[i])
  {
    if texts == [] then [] else Lift(texts[..|texts| - 1]) + [Scalars(texts[|texts| - 1])]
  }

  lemma LiftAppend(a: seq<string>, b: seq<string>)
    ensures Lift(a + b) == Lift(a) + Lift(b)
  {
  }

  lemma OneMoreRequest(init: seq<Request>, r: Request)
    ensures FirstTold(init + [r]) == FirstTold(init) + (if IsNew(init, r) then [r.text] else [])
    ensures KeptEntries(init + [r]) == KeptEntries(init) + (if IsKept(r) then [Entry(r.id.chars, r.text.chars)] else [])
    ensures RequestIds(init + [r]) == RequestIds(init) + {r.id}
  {
    var all := init + [r];
    assert all[..|init|] == init && all[|init|] == r;
    assert forall i | 0 <= i < |init| :: all[i] == init[i];
  }

  lemma OneMoreKept(init: seq<Request>, r: Request)
    requires IsKept(r)
    ensures var (log, entry) := (KeptEntries(init), Entry(r.id.chars, r.text.chars));
      && FirstTexts(KeptEntries(init + [r])) == FirstTexts(log) + (if TellsNew(log, entry) then [entry.text] else [])
      && Ids(KeptEntries(init + [r])) == Ids(log) + {entry.id}
  {
    OneMoreRequest(init, r);
    FirstTextsSnoc(KeptEntries(init), Entry(r.id.chars, r.text.chars));
    IdsSnoc(KeptEntries(init), Entry(r.id.chars, r.text.chars));
  }

  lemma NoMoreKept(init: seq<Request>, r: Request)
    requires !IsKept(r)
    ensures KeptEntries(init + [r]) == KeptEntries(init)
  {
    OneMoreRequest(init, r);
  }

  lemma TellsLast(requests: seq<Request>, i: nat)
    requires i < |requests|
    ensures var init := requests[..|requests| - 1];
      && (i < |init| ==> Tells(init, i) == Tells(requests, i) && init[i] == requests[i])
      && (i == |init| ==> Tells(requests, i) == IsNew(init, requests[i]))
  {
    if i < |requests| - 1 {
      assert requests[..|requests| - 1][..i] == requests[..i];
    }
  }

  lemma {:induction false} KeptIds(requests: seq<Request>, id: string)
    requires id in Ids(KeptEntries(requests))
    ensures Scalars(id) in RequestIds(requests)
  {
    if requests != [] {
      var init, r := requests[..|requests| - 1], requests[|requests| - 1];
      assert requests == init + [r];
      OneMoreRequest(init, r);
      if IsKept(r) {
        OneMoreKept(init, r);
      } else {
        NoMoreKept(init, r);
      }
      if id in Ids(KeptEntries(init)) {
        KeptIds(init, id);
      }
    }
  }

  /** Whatever tells something new under a keepable id has a keepable text. */
  predicate TextsKeepable(requests: seq<Request>) {
    forall i | 0 <= i < |requests| && Tells(requests, i) && Keepable(requests[i].id) :: Keepable(requests[i].text)
  }

  lemma TextsKeepableInit(requests: seq<Request>)
    requires TextsKeepable(requests) && requests != []
    ensures TextsKeepable(requests[..|requests| - 1])
  {
    var init := requests[..|requests| - 1];
    forall i | 0 <= i < |init| && Tells(init, i) && Keepable(init[i].id)
      ensures Keepable(init[i].text)
    {
      TellsLast(requests, i);
    }
  }

  lemma {:induction false} KeepableIdKept(requests: seq<Request>, id: string)
    requires TextsKeepable(requests) && HasNoSeparator(id) && Scalars(id) in RequestIds(requests)
    ensures id in Ids(KeptEntries(requests))
  {
    if requests != [] {
      var init, r := requests[..|requests| - 1], requests[|requests| - 1];
      assert requests == init + [r];
      OneMoreRequest(init, r);
      if Scalars(id) in RequestIds(init) {
        TextsKeepableInit(requests);
        KeepableIdKept(init, id);
      } else {
        TellsLast(requests, |init|);
        assert Keepable(EMPTY) && IsKept(r);
      }
      if IsKept(r) {
        OneMoreKept(init, r);
      } else {
        NoMoreKept(init, r);
      }
    }
  }

  /** Every request that tells something new is kept. */
  predicate AllToldKept(requests: seq<Request>) {
    forall i | 0 <= i < |requests| && Tells(requests, i) :: IsKept(requests[i])
  }

  lemma AllToldKeptLast(requests: seq<Request>)
    requires requests != []
    ensures var (init, r) := (requests[..|requests| - 1], requests[|requests| - 1]);
      AllToldKept(requests) <==> AllToldKept(init) && (IsNew(init, r) ==> IsKept(r))
  {
    var init := requests[..|requests| - 1];
    forall i | 0 <= i < |requests|
      ensures i < |init| ==> Tells(init, i) == Tells(requests, i) && init[i] == requests[i]
      ensures i == |init| ==> Tells(requests, i) == IsNew(init, requests[i])
    {
      TellsLast(requests, i);
    }
  }

  /** A kept request is told by the drains exactly when it tells something new. */
  lemma KeptTellsIff(init: seq<Request>, r: Request)
    requires TextsKeepable(init) && IsKept(r)
    ensures TellsNew(KeptEntries(init), Entry(r.id.chars, r.text.chars)) <==> IsNew(init, r)
  {
    if r.id in RequestIds(init) {
      KeepableIdKept(init, r.id.chars);
    }
    if r.id.chars in Ids(KeptEntries(init)) {
      KeptIds(init, r.id.chars);
    }
  }

  /** With keepable texts only the requests under other ids are missing from what is told. */
  lemma {:induction false} MissingIffLost(requests: seq<Request>)
    requires TextsKeepable(requests)
    ensures var (told, wanted) := (Lift(FirstTexts(KeptEntries(requests))), FirstTold(requests));
      && |told| <= |wanted|
      && (AllToldKept(requests) ==> told == wanted)
      && (!AllToldKept(requests) ==> |told| < |wanted|)
  {
    if requests != [] {
      var init, r := requests[..|requests| - 1], requests[|requests| - 1];
      assert requests == init + [r];
      TextsKeepableInit(requests);
      MissingIffLost(init);
      OneMoreRequest(init, r);
      AllToldKeptLast(requests);
      if IsKept(r) {
        OneMoreLifted(init, r);
      } else {
        NoMoreKept(init, r);
      }
    }
  }

  lemma OneMoreLifted(init: seq<Request>, r: Request)
    requires TextsKeepable(init) && IsKept(r)
    ensures Lift(FirstTexts(KeptEntries(init + [r]))) ==
      Lift(FirstTexts(KeptEntries(init))) + (if IsNew(init, r) then [r.text] else [])
  {
    OneMoreKept(init, r);
    KeptTellsIff(init, r);
    LiftAppend(FirstTexts(KeptEntries(init)), [r.text.chars]);
  }

  lemma {:induction false} KeptTextsKeepable(requests: seq<Request>)
    ensures forall t | t in FirstTexts(KeptEntries(requests)) :: HasNoSeparator(t)
  {
    if requests != [] {
      var init, r := requests[..|requests| - 1], requests[|requests| - 1];
      assert requests == init + [r];
      KeptTextsKeepable(init);
      if IsKept(r) {
        OneMoreKept(init, r);
      } else {
        NoMoreKept(init, r);
      }
    }
  }

  lemma {:induction false} ToldIsIn(requests: seq<Request>, i: nat)
    requires i < |requests| && Tells(requests, i)
    ensures requests[i].text in FirstTold(requests)
  {
    var init, r := requests[..|requests| - 1], requests[|requests| - 1];
    assert requests == init + [r];
    TellsLast(requests, i);
    OneMoreRequest(init, r);
    if i < |init| {
      ToldIsIn(init, i);
    }
  }

  lemma NothingLostIff(requests: seq<Request>)
    ensures Lift(FirstTexts(KeptEntries(requests))) == FirstTold(requests) <==> AllToldKept(requests)
  {
    if TextsKeepable(requests) {
      MissingIffLost(requests);
    } else {
      var i :| 0 <= i < |requests| && Tells(requests, i) && Keepable(requests[i].id) && !Keepable(requests[i].text);
      ToldIsIn(requests, i);
      KeptTextsKeepable(requests);
    }
  }

  /**
   * The texts drained are the non-empty first texts of each id of everything that was to be written
   * before the last drain if and only if neither the id nor the text of any request that tells
   * something new has a lone surrogate or a next-line, line-separator or paragraph-separator character.
   */
  lemma NothingLostInRunIff(reader: Reader, events: seq<Event>)
    requires ReadsJson(reader) && Proper(events)
    ensures Lift(Run(reader, events).delivered) == FirstTold(RequestedAtDrain(events))
      <==> AllToldKept(RequestedAtDrain(events))
  {
    ExactlyOnceInOrder(reader, events);
    KeptSurvive(RequestedAtDrain(events));
    NothingLostIff(RequestedAtDrain(events));
  }

  lemma AskedOnce(write: Event)
    requires write.WriteEvent?
    ensures RequestedAtDrain([write, DrainEvent]) == [RequestOf(write)]
  {
    assert [write, DrainEvent][..1] == [write] && [write][..0] == [];
    assert RequestedBy([write]) == [] + [RequestOf(write)];
    assert RequestedBy([write, DrainEvent]) == RequestedBy([write]) + [];
  }

  /** The shortest loss: a message with a lone surrogate is never delivered. */
  lemma SurrogateLost(reader: Reader, write: Event)
    requires ReadsJson(reader) && write.WriteEvent? && Proper([write, DrainEvent])
    requires write.text.WithSurrogates?
    ensures Run(reader, [write, DrainEvent]).delivered == []
    ensures FirstTold(RequestedAtDrain([write, DrainEvent])) == [write.text]
  {
    var r := RequestOf(write);
    AskedOnce(write);
    assert [] + [r] == [r];
    WrittenForSnoc([], r);
    OneMoreRequest([], r);
    ExactlyOnceInOrder(reader, [write, DrainEvent]);
  }
}
