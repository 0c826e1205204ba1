/** Escaping raw control characters inside JSON string literals (section 7 of RFC 8259). */
module JsonRepair {

  /** Where the walker stands: outside every literal, inside one, or just after a backslash in one. */
  datatype State = Outside | Inside | Escaping

  function Next(q: State, c: char): State {
    match q
    case Escaping => Inside
    case Inside => if c == '\\' then Escaping else if c == '"' then Outside else Inside
    case Outside => if c == '"' then Inside else Outside
  }

  function StateAfter(q: State, s: string): State
    decreases s
  {
    if s == [] then q else StateAfter(Next(q, s[0]), s[1..])
  }

  predicate IsRaw(c: char) {
    c == '\n' || c == '\r' || c == '\t'
  }

  function Letter(c: char): char {
    if c == '\n' then 'n' else if c == '\r' then 'r' else 't'
  }

  function Emit(q: State, c: char): string {
    if q == Inside && IsRaw(c) then ['\\', Letter(c)] else [c]
  }

  /** The specification of `_fix_control_chars_inside_json_strings`, from state `q`. */
  function Repair(q: State, s: string): string
    decreases s
  {
    if s == [] then [] else Emit(q, s[0]) + Repair(Next(q, s[0]), s[1..])
  }

  lemma {:induction false} RepairAppend(q: State, a: string, b: string)
    ensures StateAfter(q, a + b) == StateAfter(StateAfter(q, a), b)
    ensures Repair(q, a + b) == Repair(q, a) + Repair(StateAfter(q, a), b)
    decreases a
  {
    if a == [] {
      assert a + b == b;
    } else {
      assert (a + b)[1..] == a[1..] + b;
      RepairAppend(Next(q, a[0]), a[1..], b);
    }
  }

  lemma RepairSnoc(q: State, s: string, c: char)
    ensures StateAfter(q, s + [c]) == Next(StateAfter(q, s), c)
    ensures Repair(q, s + [c]) == Repair(q, s) + Emit(StateAfter(q, s), c)
  {
    RepairAppend(q, s, [c]);
    assert [c][1..] == [];
  }

  method FixControlCharsInsideJsonStrings(s: string) returns (out: string)
    ensures out == Repair(Outside, s)
  {
    out := [];
    var inStr, escape := false, false;
    ghost var q := Outside;
    for i := 0 to |s|
      invariant q == if escape then Escaping else if inStr then Inside else Outside
      invariant escape ==> inStr
      invariant q == StateAfter(Outside, s[..i]) && out == Repair(Outside, s[..i])
    {
      var c := s[i];
      ghost var before := out;
      if escape {
        out := out + [c];
        escape := false;
      } else if c == '\\' && inStr {
        out := out + [c];
        escape := true;
      } else if c == '"' {
        inStr := !inStr;
        out := out + [c];
      } else if inStr && c == '\n' {
        out := out + ['\\', 'n'];
      } else if inStr && c == '\r' {
        out := out + ['\\', 'r'];
      } else if inStr && c == '\t' {
        out := out + ['\\', 't'];
      } else {
        out := out + [c];
      }
      assert out == before + Emit(q, c);
      RepairSnoc(Outside, s[..i], c);
      assert s[..i] + [c] == s[..i + 1];
      q := Next(q, c);
    }
    assert s[..|s|] == s;
  }

  // ---------------------------------------------------------------- what a text denotes

  /**
   * What a lenient reader sees: structure outside literals, the characters literals hold, and for
   * escapes it cannot resolve on the spot (`\u` and malformed ones) the letter after the backslash.
   */
  datatype Event = Structure(c: char) | Quote | Holds(c: char) | Unresolved(c: char)

  function Resolve(c: char): Event {
    match c
    case 'n' => Holds('\n')
    case 'r' => Holds('\r')
    case 't' => Holds('\t')
    case 'b' => Holds('\U{08}')
    case 'f' => Holds('\U{0C}')
    case '"' => Holds('"')
    case '\\' => Holds('\\')
    case '/' => Holds('/')
    case _ => Unresolved(c)
  }

  function See(q: State, c: char): seq<Event> {
    match q
    case Outside => [if c == '"' then Quote else Structure(c)]
    case Inside => if c == '\\' then [] else if c == '"' then [Quote] else [Holds(c)]
    case Escaping => [Resolve(c)]
  }

  /** The events of a text; raw newline, carriage return and tab in a literal stand for themselves. */
  function Denotes(q: State, s: string): seq<Event>
    decreases s
  {
    if s == [] then [] else See(q, s[0]) + Denotes(Next(q, s[0]), s[1..])
  }

  /** An emitted piece leads to the same state and the same events as the character it stands for. */
  lemma EmitMeans(q: State, c: char, rest: string)
    ensures StateAfter(q, Emit(q, c) + rest) == StateAfter(Next(q, c), rest)
    ensures Denotes(q, Emit(q, c) + rest) == See(q, c) + Denotes(Next(q, c), rest)
  {
    var s := Emit(q, c) + rest;
    if q == Inside && IsRaw(c) {
      assert s[1..] == [Letter(c)] + rest;
      assert s[1..][1..] == rest;
      assert Denotes(Escaping, s[1..]) == [Holds(c)] + Denotes(Inside, rest);
      assert [] + Denotes(Escaping, s[1..]) == Denotes(Escaping, s[1..]);
    } else {
      assert s[1..] == rest;
    }
  }

  /** The repaired text denotes what the original does and ends in the same state. */
  lemma {:induction false} RepairPreserves(q: State, s: string)
    ensures Denotes(q, Repair(q, s)) == Denotes(q, s)
    ensures StateAfter(q, Repair(q, s)) == StateAfter(q, s)
    decreases s
  {
    if s != [] {
      EmitMeans(q, s[0], Repair(Next(q, s[0]), s[1..]));
      RepairPreserves(Next(q, s[0]), s[1..]);
    }
  }

  /** The repair works prefix by prefix, and after each prefix the walker is in the same state. */
  lemma RepairTracksState(q: State, s: string, k: nat)
    requires k <= |s|
    ensures Repair(q, s) == Repair(q, s[..k]) + Repair(StateAfter(q, s[..k]), s[k..])
    ensures StateAfter(q, Repair(q, s[..k])) == StateAfter(q, s[..k])
  {
    assert s == s[..k] + s[k..];
    RepairAppend(q, s[..k], s[k..]);
    RepairPreserves(q, s[..k]);
  }

  // ---------------------------------------------------------------- when the text changes, and when it becomes strict

  /** Some raw character stands in a literal, not behind a backslash. */
  predicate RawInside(q: State, s: string)
    decreases s
  {
    s != [] && ((q == Inside && IsRaw(s[0])) || RawInside(Next(q, s[0]), s[1..]))
  }

  /** The control characters that section 7 of RFC 8259 bans from literals. */
  predicate IsControl(c: char) {
    c < ' '
  }

  predicate ControlInLiteral(q: State, s: string)
    decreases s
  {
    s != [] && ((q != Outside && IsControl(s[0])) || ControlInLiteral(Next(q, s[0]), s[1..]))
  }

  /** A literal has a control character behind a backslash, or one the walker does not know. */
  predicate Unrepairable(q: State, s: string)
    decreases s
  {
    && s != []
    && (|| (q == Escaping && IsControl(s[0]))
        || (q == Inside && IsControl(s[0]) && !IsRaw(s[0]))
        || Unrepairable(Next(q, s[0]), s[1..]))
  }

  lemma {:induction false} RepairGrows(q: State, s: string)
    ensures |s| <= |Repair(q, s)|
    ensures RawInside(q, s) ==> |s| < |Repair(q, s)|
    ensures !RawInside(q, s) ==> Repair(q, s) == s
    decreases s
  {
    if s != [] {
      RepairGrows(Next(q, s[0]), s[1..]);
    }
  }

  lemma {:induction false} RepairRaw(q: State, s: string)
    ensures !RawInside(q, Repair(q, s))
    ensures ControlInLiteral(q, Repair(q, s)) <==> Unrepairable(q, s)
    decreases s
  {
    if s != [] {
      var c, rest := s[0], Repair(Next(q, s[0]), s[1..]);
      var out := Emit(q, c);
      RepairRaw(Next(q, c), s[1..]);
      assert (out + rest)[|out|..] == rest;
      if q == Inside && IsRaw(c) {
        assert (out + rest)[1..][1..] == rest;
        assert (out + rest)[1..][0] == Letter(c);
      }
    }
  }

  /** The repair is the identity exactly on texts without a raw character to escape, and it is idempotent. */
  lemma IdentityIffNoRaw(s: string)
    ensures Repair(Outside, s) == s <==> !RawInside(Outside, s)
    ensures Repair(Outside, Repair(Outside, s)) == Repair(Outside, s)
  {
    RepairGrows(Outside, s);
    RepairRaw(Outside, s);
    RepairGrows(Outside, Repair(Outside, s));
  }

  /**
   * The repaired text meets RFC 8259's ban on control characters in literals exactly when the
   * original has none there but newlines, carriage returns and tabs that are not behind a backslash.
   */
  lemma StrictIffRepairable(s: string)
    ensures !ControlInLiteral(Outside, Repair(Outside, s)) <==> !Unrepairable(Outside, s)
  {
    RepairRaw(Outside, s);
  }

  /** A raw newline behind a backslash stays as it is, and stays banned. */
  lemma NewlineBehindBackslash()
    ensures var s := ['"', '\\', '\n', '"'];
      Repair(Outside, s) == s && ControlInLiteral(Outside, Repair(Outside, s))
  {
    var s := ['"', '\\', '\n', '"'];
    assert s[1..] == ['\\', '\n', '"'] && s[1..][1..] == ['\n', '"'] && s[1..][1..][1..] == ['"'];
    assert ControlInLiteral(Escaping, ['\n', '"']);
    assert !RawInside(Outside, [])  && !RawInside(Inside, ['"']);
    RepairGrows(Outside, s);
  }
}
