/** Shortening one old tool result, and what repeating it leads to. */
module ToolResults {
  import opened Text
  import opened Iteration

  /** `content.split("\n")[0]`. */
  function FirstLine(s: string): (line: string)
    ensures line <= s && '\n' !in line
    ensures '\n' !in s ==> line == s
  {
    if s == [] || s[0] == '\n' then [] else [s[0]] + FirstLine(s[1..])
  }

  function Digit(d: nat): char
    requires d < 10
  {
    '0' + d as char
  }

  /** `str(n)`. */
  function Decimal(n: nat): (s: string)
    ensures s != [] && |s| <= 1 + n / 10
    ensures '\n' !in s && '.' !in s
  {
    if n < 10 then [Digit(n)] else Decimal(n / 10) + [Digit(n % 10)]
  }

  /** The warning sign that marks an error result. */
  const WARNING := ['\U{26A0}', '\U{FE0F}']

  predicate IsError(content: string) {
    WARNING <= content
  }

  function Suffix(n: nat): (s: string)
    ensures |s| == 12 + |Decimal(n)|
    ensures '\n' !in s && s[0] == '.' && s[1] == '.'
  {
    "... (" + Decimal(n) + " chars)"
  }

  /** The summary that replaces a tool result. */
  function Summary(content: string): string {
    if IsError(content) then Clip(content, 200)
    else if |content| > 80 then Clip(FirstLine(content), 80) + Suffix(|content|)
    else Clip(content, 200)
  }

  /** The summary after `n` passes. */
  function Passes(n: nat, content: string): string {
    Iterate(Summary, n, content)
  }

  predicate Fixed(content: string) {
    Summary(content) == content
  }

  // ---------------------------------------------------------------- lengths

  lemma DecimalLength(n: nat)
    ensures 10 <= n < 100 ==> |Decimal(n)| == 2
    ensures 100 <= n < 1000 ==> |Decimal(n)| == 3
    ensures 100 <= n ==> 92 + |Decimal(n)| < n
  {
    if 100 <= n < 1000 {
      assert 10 <= n / 10 < 100;
      assert |Decimal(n / 10)| == 2;
    }
  }

  /** One pass lengthens a result only between 81 and 93 characters, and by at most 13. */
  lemma OnePassLength(content: string)
    ensures |Summary(content)| > |content| ==>
      81 <= |content| <= 93 && |Summary(content)| <= |content| + 13
    ensures IsError(content) ==> |Summary(content)| <= 200
  {
    DecimalLength(|content|);
  }

  /** It does lengthen every single-line result of such a length: to exactly 94 characters. */
  lemma LengthensBetween(content: string)
    requires !IsError(content) && '\n' !in content && 81 <= |content| <= 93
    ensures |Summary(content)| == 94 && !Fixed(content)
  {
    DecimalLength(|content|);
  }

  // ---------------------------------------------------------------- idempotence

  lemma {:induction false} DecimalInjective(a: nat, b: nat)
    ensures Decimal(a) == Decimal(b) ==> a == b
  {
    if Decimal(a) == Decimal(b) && a >= 10 && b >= 10 {
      var s := Decimal(a);
      assert s[..|s| - 1] == Decimal(a / 10) && s[..|s| - 1] == Decimal(b / 10);
      assert s[|s| - 1] == Digit(a % 10) && s[|s| - 1] == Digit(b % 10);
      DecimalInjective(a / 10, b / 10);
    }
  }

  lemma SuffixInjective(a: nat, b: nat)
    ensures Suffix(a) == Suffix(b) ==> a == b
  {
    assert Suffix(a)[5..|Suffix(a)| - 7] == Decimal(a);
    assert Suffix(b)[5..|Suffix(b)| - 7] == Decimal(b);
    DecimalInjective(a, b);
  }

  lemma ThreeDotsOnly(n: nat, i: nat)
    requires i < |Suffix(n)|
    ensures Suffix(n)[i] == '.' <==> i < 3
  {
    var s, d := Suffix(n), Decimal(n);
    if 5 <= i < 5 + |d| {
      assert s[i] == d[i - 5] && d[i - 5] in d;
    }
  }

  lemma SummaryOfLine(line: string)
    requires !IsError(line) && '\n' !in line && |line| > 80
    ensures var r := Summary(line);
      && r[..80] == line[..80] && r[80..] == Suffix(|line|)
      && '\n' !in r && !IsError(r)
  {
    var r := Summary(line);
    assert r == line[..80] + Suffix(|line|);
    assert r[..2] == line[..2];
  }

  lemma SummaryShape(content: string)
    requires !IsError(content) && |content| > 80
    ensures '\n' !in Summary(content) && !IsError(Summary(content))
  {
    var head, s := Clip(FirstLine(content), 80), Summary(content);
    assert s == head + Suffix(|content|);
    if |head| >= 2 {
      assert s[..2] == head[..2] == content[..2];
    } else {
      assert s[|head|] == '.' && s[1] == '.';
    }
  }

  /** The long lines that a pass leaves alone: 94 characters that say so. */
  lemma FixedLineIff(line: string)
    requires !IsError(line) && '\n' !in line && |line| > 80
    ensures Fixed(line) <==> |line| == 94 && line[80..] == Suffix(94)
  {
    var r := Summary(line);
    SummaryOfLine(line);
    DecimalLength(|line|);
    assert line == line[..80] + line[80..] && r == r[..80] + r[80..];
  }

  lemma RemarkFitsIff(head: string, n: nat)
    requires |head| <= 80
    ensures var s := head + Suffix(n);
      (|s| == 94 && s[80..] == Suffix(94)) <==> (|head| == 80 && n == 94)
  {
    var s := head + Suffix(n);
    DecimalLength(94);
    if |head| == 80 {
      assert s[80..] == Suffix(n);
      SuffixInjective(n, 94);
    } else if |s| == 94 {
      var k := 82 - |head|;
      assert s[80..][2] == Suffix(n)[k];
      ThreeDotsOnly(n, k);
      ThreeDotsOnly(94, 2);
    }
  }

  /** The summary of a long result states its own length only by chance: at 94 characters. */
  lemma LongSummaryFixedIff(content: string)
    requires !IsError(content) && |content| > 80 && |Summary(content)| > 80
    ensures Fixed(Summary(content)) <==> |content| == 94 && |FirstLine(content)| >= 80
  {
    SummaryShape(content);
    FixedLineIff(Summary(content));
    RemarkFitsIff(Clip(FirstLine(content), 80), |content|);
  }

  /**
   * A second pass changes nothing if and only if the result is an error or short, its first line and
   * the remark are short together, or it is one of 94 characters with a long first line.
   */
  lemma IdempotentIff(content: string)
    ensures Summary(Summary(content)) == Summary(content) <==>
      || IsError(content) || |content| <= 80
      || |FirstLine(content)| + 12 + |Decimal(|content|)| <= 80
      || (|content| == 94 && |FirstLine(content)| >= 80)
  {
    if IsError(content) {
      assert Summary(content)[..2] == content[..2];
    } else if |content| > 80 {
      SummaryShape(content);
      if |Summary(content)| > 80 {
        LongSummaryFixedIff(content);
      }
    }
  }

  /** A single line of 100 characters: the first pass makes it 95 long and the second 94. */
  lemma SecondPassShortens(line: string)
    requires !IsError(line) && '\n' !in line && |line| == 100
    ensures |Summary(line)| == 95 && |Summary(Summary(line))| == 94
  {
    DecimalLength(100);
    DecimalLength(95);
    SummaryOfLine(line);
  }

  // ---------------------------------------------------------------- convergence

  /** The text that the repeated summary of a long single line arrives at. */
  function Limit(line: string): string
    requires |line| > 80
  {
    line[..80] + Suffix(94)
  }

  lemma {:induction false} LongLineConverges(line: string) returns (n: nat)
    requires !IsError(line) && '\n' !in line && |line| > 80
    ensures Passes(n, line) == Limit(line)
    decreases if |line| == 94 then 0 else if |line| > 94 then |line| else 95
  {
    var r := Summary(line);
    SummaryOfLine(line);
    DecimalLength(|line|);
    if |line| == 94 {
      n := 1;
      IterateStep(Summary, 0, line, r);
    } else {
      var m := LongLineConverges(r);
      n := m + 1;
      IterateStep(Summary, m, line, r);
    }
  }

  lemma LimitFixed(line: string)
    requires !IsError(line) && '\n' !in line && |line| > 80
    ensures Fixed(Limit(line)) && |Limit(line)| == 94
  {
    DecimalLength(94);
    var l := Limit(line);
    assert l[80..] == Suffix(94);
    assert l[..2] == line[..2];
    FixedLineIff(l);
  }

  /** A short line itself, else its first 80 characters marked as a 94-character text. */
  function FinalLine(line: string): string {
    if |line| <= 80 then line else Limit(line)
  }

  function FinalSummary(content: string): string {
    FinalLine(Summary(content))
  }

  lemma FinalSummaryFixed(content: string)
    requires !IsError(content) && |content| > 80
    ensures Fixed(FinalSummary(content)) && |FinalSummary(content)| <= 94
  {
    SummaryShape(content);
    if |Summary(content)| > 80 {
      LimitFixed(Summary(content));
    }
  }

  lemma LineConverges(line: string) returns (n: nat)
    requires !IsError(line) && '\n' !in line
    ensures Passes(n, line) == FinalLine(line)
  {
    n := 0;
    if |line| > 80 {
      n := LongLineConverges(line);
    }
  }

  lemma FinalSummaryReached(content: string) returns (n: nat)
    requires !IsError(content) && |content| > 80
    ensures Passes(n, content) == FinalSummary(content)
  {
    SummaryShape(content);
    n := LineConverges(Summary(content));
    IterateStep(Summary, n, content, Summary(content));
    n := n + 1;
  }

  /**
   * Repeated summaries of any non-error result longer than 80 characters arrive at a fixed text
   * of at most 94 characters and stay there.
   */
  lemma SummariesConverge(content: string) returns (n: nat)
    requires !IsError(content) && |content| > 80
    ensures forall m: nat | n <= m :: Passes(m, content) == FinalSummary(content)
    ensures Fixed(FinalSummary(content)) && |FinalSummary(content)| <= 94
  {
    FinalSummaryFixed(content);
    n := FinalSummaryReached(content);
    forall m: nat | n <= m
      ensures Passes(m, content) == FinalSummary(content)
    {
      FixedStays(Summary, n, m, content);
    }
  }

  /** Results of at most 80 characters never change, and error results not after the first pass. */
  lemma ShortAndErrorResults(content: string)
    ensures |content| <= 80 ==> Fixed(content)
    ensures IsError(content) ==> Fixed(Summary(content))
  {
    assert IsError(content) ==> Summary(content)[..2] == content[..2];
  }

  /** What repeated summaries of any result arrive at. */
  function FinalText(content: string): string {
    if IsError(content) || |content| <= 80 then Summary(content) else FinalSummary(content)
  }

  lemma FinalTextFixed(content: string)
    ensures Fixed(FinalText(content))
  {
    if IsError(content) || |content| <= 80 {
      ShortAndErrorResults(content);
    } else {
      FinalSummaryFixed(content);
    }
  }

  /** It is reached from the first summary. */
  lemma FinalTextReached(content: string) returns (n: nat)
    ensures Passes(n, Summary(content)) == FinalText(content)
  {
    n := 0;
    if !IsError(content) && |content| > 80 {
      SummaryShape(content);
      n := LineConverges(Summary(content));
    }
  }
}
