/** Python's string primitives as the modelled code uses them: line splitting, joining and stripping. */
module Text {

  /** The line boundaries of `str.splitlines`. */
  predicate IsLineBreak(c: char) {
    || '\n' <= c <= '\r'
    || '\U{1C}' <= c <= '\U{1E}'
    || c == '\U{85}' || c == '\U{2028}' || c == '\U{2029}'
  }

  /** The characters removed by `str.strip`. */
  predicate IsSpace(c: char) {
    || '\t' <= c <= '\r'
    || '\U{1C}' <= c <= ' '
    || c == '\U{85}' || c == '\U{A0}' || c == '\U{1680}'
    || '\U{2000}' <= c <= '\U{200A}'
    || c == '\U{2028}' || c == '\U{2029}' || c == '\U{202F}' || c == '\U{205F}' || c == '\U{3000}'
  }

  /** A line: a text without line boundaries. */
  predicate IsLine(s: string) {
    forall c | c in s :: !IsLineBreak(c)
  }

  predicate AreLines(lines: seq<string>) {
    forall l | l in lines :: IsLine(l)
  }

  predicate StartsWith(s: string, prefix: string) {
    |prefix| <= |s| && s[..|prefix|] == prefix
  }

  predicate EndsWith(s: string, suffix: string) {
    |suffix| <= |s| && s[|s| - |suffix|..] == suffix
  }

  // ---------------------------------------------------------------- splitting and joining

  /** The length of the first line of `s`. */
  function BreakAt(s: string): (k: nat)
    ensures k <= |s| && IsLine(s[..k])
    ensures k < |s| ==> IsLineBreak(s[k])
  {
    if s == [] || IsLineBreak(s[0]) then 0
    else
      var k := 1 + BreakAt(s[1..]);
      assert s[..k] == [s[0]] + s[1..][..k - 1];
      k
  }

  /** The text after its first line and that line's boundary; `\r\n` is one boundary. */
  function AfterBreak(s: string): (rest: string)
    requires s != []
    ensures |rest| < |s|
  {
    var k := BreakAt(s);
    if k == |s| then []
    else if s[k] == '\r' && k + 1 < |s| && s[k + 1] == '\n' then s[k + 2..]
    else s[k + 1..]
  }

  /** `str.splitlines`. */
  function SplitLines(s: string): (lines: seq<string>)
    ensures AreLines(lines)
    decreases |s|
  {
    if s == [] then [] else [s[..BreakAt(s)]] + SplitLines(AfterBreak(s))
  }

  /** `sep.join(parts)`. */
  function Join(sep: string, parts: seq<string>): string {
    if parts == [] then []
    else if |parts| == 1 then parts[0]
    else parts[0] + sep + Join(sep, parts[1..])
  }

  /** Every line followed by `\n`: a newline-terminated text. */
  function Unlines(lines: seq<string>): string {
    if lines == [] then [] else lines[0] + "\n" + Unlines(lines[1..])
  }

  lemma {:induction false} BreakAtLine(line: string, rest: string)
    requires IsLine(line)
    ensures BreakAt(line + "\n" + rest) == |line|
  {
    var s := line + "\n" + rest;
    if line == [] {
      assert s[0] == '\n';
    } else {
      assert line[0] in line;
      assert s[1..] == line[1..] + "\n" + rest;
      BreakAtLine(line[1..], rest);
    }
  }

  lemma {:induction false} SplitUnlines(lines: seq<string>)
    requires AreLines(lines)
    ensures SplitLines(Unlines(lines)) == lines
  {
    if lines == [] {
    } else {
      var s, rest := Unlines(lines), Unlines(lines[1..]);
      assert lines[0] in lines;
      BreakAtLine(lines[0], rest);
      assert s[..|lines[0]|] == lines[0];
      assert s[|lines[0]|] == '\n';
      assert AfterBreak(s) == rest;
      SplitUnlines(lines[1..]);
    }
  }

  lemma {:induction false} JoinTerminated(lines: seq<string>)
    requires lines != []
    ensures Join("\n", lines) + "\n" == Unlines(lines)
  {
    if |lines| == 1 {
      assert Unlines(lines[1..]) == [];
    } else {
      JoinTerminated(lines[1..]);
      assert Join("\n", lines) + "\n" == lines[0] + "\n" + (Join("\n", lines[1..]) + "\n");
    }
  }

  lemma {:induction false} UnlinesTerminated(lines: seq<string>)
    requires lines != []
    ensures EndsWith(Unlines(lines), "\n")
  {
    if |lines| == 1 {
      assert Unlines(lines) == lines[0] + "\n";
    } else {
      UnlinesTerminated(lines[1..]);
      var s, t := Unlines(lines), Unlines(lines[1..]);
      assert s == (lines[0] + "\n") + t;
      assert s[|s| - 1..] == t[|t| - 1..];
    }
  }

  /** `s[:n]`. */
  function Clip(s: string, n: nat): (r: string)
    ensures r <= s && |r| <= n
  {
    if |s| <= n then s else s[..n]
  }

  // ---------------------------------------------------------------- stripping

  function LStrip(s: string): string {
    if s != [] && IsSpace(s[0]) then LStrip(s[1..]) else s
  }

  function RStrip(s: string): (r: string)
    ensures r <= s
    ensures r != [] ==> !IsSpace(r[|r| - 1])
    ensures r == [] <==> forall c | c in s :: IsSpace(c)
    decreases |s|
  {
    if s != [] && IsSpace(s[|s| - 1]) then
      assert s == s[..|s| - 1] + [s[|s| - 1]];
      RStrip(s[..|s| - 1])
    else
      assert s != [] ==> s[|s| - 1] in s;
      s
  }

  /** `str.strip`. */
  function Strip(s: string): string {
    RStrip(LStrip(s))
  }

  function RStripAll(lines: seq<string>): (r: seq<string>)
    ensures |r| == |lines|
    ensures forall i | 0 <= i < |r| :: r[i] == RStrip(lines[i])
  {
    seq(|lines|, i requires 0 <= i < |lines| => RStrip(lines[i]))
  }

  /** All white space; `StripShape` shows this to be `not line.strip()`. */
  predicate IsBlank(line: string) {
    forall c | c in line :: IsSpace(c)
  }

  /** No white space at either end. */
  predicate Stripped(s: string) {
    s != [] ==> !IsSpace(s[0]) && !IsSpace(s[|s| - 1])
  }

  lemma {:induction false} LStripShape(s: string)
    ensures |LStrip(s)| <= |s| && LStrip(s) == s[|s| - |LStrip(s)|..]
    ensures LStrip(s) != [] ==> !IsSpace(LStrip(s)[0])
    ensures LStrip(s) == [] <==> forall c | c in s :: IsSpace(c)
  {
    if s != [] && IsSpace(s[0]) {
      LStripShape(s[1..]);
      assert s == [s[0]] + s[1..];
    } else if s != [] {
      assert s[0] in s;
    }
  }

  lemma StripShape(s: string)
    ensures Stripped(Strip(s))
    ensures IsLine(s) ==> IsLine(Strip(s))
    ensures Stripped(s) ==> Strip(s) == s
    ensures IsBlank(s) <==> Strip(s) == []
  {
    LStripShape(s);
    var l := LStrip(s);
    var r := Strip(s);
    assert l == s[|s| - |l|..];
    assert r != [] ==> r[0] == l[0];
    forall c | c in r
      ensures c in s
    {
      var i :| 0 <= i < |r| && r[i] == c;
      assert l[i] == c && s[|s| - |l| + i] == c;
    }
    if s != [] && Stripped(s) {
      assert LStrip(s) == s;
    }
    if l == [] {
    } else {
      assert l[0] in l && s[|s| - |l|] in s;
    }
  }

  /** After `rstrip`, blank means empty. */
  lemma BlankRStrip(line: string)
    ensures IsBlank(RStrip(line)) <==> RStrip(line) == []
  {
    StripShape(RStrip(line));
    var r := RStrip(line);
    assert r != [] ==> r[|r| - 1] in r;
  }

  /** `(" " + s).strip()` is `s` when `s` has no white space at its ends. */
  lemma StripLeadingSpace(s: string)
    requires Stripped(s)
    ensures Strip(" " + s) == s
  {
    assert (" " + s)[1..] == s;
    assert LStrip(" " + s) == LStrip(s);
    StripShape(s);
  }
}
