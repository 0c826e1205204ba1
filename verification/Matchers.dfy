/** The three hunk matchers: exact, right-stripped and blank-flexible. */
module Matchers {
  import opened Text

  datatype Span = Nowhere | At(start: nat, end: nat)

  // ---------------------------------------------------------------- exact matching

  predicate MatchesAt(hay: seq<string>, needle: seq<string>, i: int) {
    0 <= i && i + |needle| <= |hay| && hay[i..i + |needle|] == needle
  }

  /** `idx` is the first occurrence of `needle`, or -1 if there is none. */
  ghost predicate IsFirstMatch(hay: seq<string>, needle: seq<string>, idx: int) {
    if idx == -1 then forall i :: !MatchesAt(hay, needle, i)
    else MatchesAt(hay, needle, idx) && forall i | 0 <= i < idx :: !MatchesAt(hay, needle, i)
  }

  /** The specification of `_find_subseq`: the search from index `i` upwards. */
  function FindFrom(hay: seq<string>, needle: seq<string>, i: nat): (idx: int)
    requires i <= |hay| + 1
    ensures idx == -1 ==> forall j | i <= j :: !MatchesAt(hay, needle, j)
    ensures idx != -1 ==> i <= idx && MatchesAt(hay, needle, idx)
    ensures idx != -1 ==> forall j | i <= j < idx :: !MatchesAt(hay, needle, j)
    decreases |hay| + 1 - i
  {
    if i > |hay| then -1
    else if MatchesAt(hay, needle, i) then i
    else FindFrom(hay, needle, i + 1)
  }

  function Find(hay: seq<string>, needle: seq<string>): (idx: int)
    ensures IsFirstMatch(hay, needle, idx)
  {
    FindFrom(hay, needle, 0)
  }

  lemma FirstMatchUnique(hay: seq<string>, needle: seq<string>, idx: int, idx': int)
    requires IsFirstMatch(hay, needle, idx) && IsFirstMatch(hay, needle, idx')
    ensures idx == idx'
  {
    assert idx != -1 && idx' != -1 && idx' < idx ==> !MatchesAt(hay, needle, idx');
    assert idx != -1 && idx' != -1 && idx < idx' ==> !MatchesAt(hay, needle, idx);
  }

  method FindSubseq(hay: seq<string>, needle: seq<string>) returns (idx: int)
    ensures IsFirstMatch(hay, needle, idx)
    ensures idx == Find(hay, needle)
  {
    if needle == [] {
      assert MatchesAt(hay, needle, 0);
      FirstMatchUnique(hay, needle, 0, Find(hay, needle));
      return 0;
    }
    var size := |needle|;
    idx := 0;
    while idx < |hay| - size + 1
      invariant 0 <= idx
      invariant forall i | 0 <= i < idx :: !MatchesAt(hay, needle, i)
    {
      var offset := 0;
      while offset < size && hay[idx + offset] == needle[offset]
        invariant 0 <= offset <= size
        invariant hay[idx..idx + offset] == needle[..offset]
      {
        assert hay[idx..idx + offset + 1] == hay[idx..idx + offset] + [hay[idx + offset]];
        offset := offset + 1;
      }
      if offset == size {
        assert MatchesAt(hay, needle, idx);
        FirstMatchUnique(hay, needle, idx, Find(hay, needle));
        return;
      }
      assert hay[idx..idx + size][offset] != needle[offset];
      idx := idx + 1;
    }
    idx := -1;
    FirstMatchUnique(hay, needle, idx, Find(hay, needle));
  }

  method FindSubseqRStrip(hay: seq<string>, needle: seq<string>) returns (idx: int)
    ensures IsFirstMatch(RStripAll(hay), RStripAll(needle), idx)
    ensures idx == Find(RStripAll(hay), RStripAll(needle))
  {
    if needle == [] {
      assert MatchesAt(RStripAll(hay), RStripAll(needle), 0);
      FirstMatchUnique(RStripAll(hay), RStripAll(needle), 0, Find(RStripAll(hay), RStripAll(needle)));
      return 0;
    }
    idx := FindSubseq(RStripAll(hay), RStripAll(needle));
  }

  // ---------------------------------------------------------------- blank-flexible matching

  /** `span` is `ned` with blank lines inserted anywhere. */
  predicate Padded(ned: seq<string>, span: seq<string>) {
    if span == [] then ned == []
    else
      || (span[0] == [] && Padded(ned, span[1..]))
      || (ned != [] && ned[0] == span[0] && Padded(ned[1..], span[1..]))
  }

  /** `span` is `ned` with blank lines inserted, but none after a last line that is not blank. */
  predicate FlexMatch(ned: seq<string>, span: seq<string>)
    requires ned != []
  {
    && Padded(ned, span)
    && span != []
    && (ned[|ned| - 1] != [] ==> span[|span| - 1] != [])
  }

  predicate NoAdjacentBlanks(ned: seq<string>) {
    forall i | 0 < i < |ned| :: !(ned[i - 1] == [] && ned[i] == [])
  }

  /** The first index from `hi` upwards whose line is not blank. */
  function SkipBlanks(hay: seq<string>, hi: nat): (hi': nat)
    requires hi <= |hay|
    ensures hi <= hi' <= |hay|
    ensures forall k | hi <= k < hi' :: hay[k] == []
    ensures hi' < |hay| ==> hay[hi'] != []
    decreases |hay| - hi
  {
    if hi < |hay| && hay[hi] == [] then SkipBlanks(hay, hi + 1) else hi
  }

  /** Where the greedy walk ends that has matched `ned[..ni]` up to `hi`, if it succeeds. */
  function FlexEnd(hay: seq<string>, ned: seq<string>, hi: nat, ni: nat): (end: int)
    requires hi <= |hay| && ni <= |ned|
    ensures end == -1 || hi <= end <= |hay|
    decreases |ned| - ni
  {
    if ni == |ned| then hi
    else if hi == |hay| then -1
    else if ned[ni] == [] then
      if hay[hi] != [] then -1 else FlexEnd(hay, ned, SkipBlanks(hay, hi), ni + 1)
    else
      var hi' := SkipBlanks(hay, hi);
      if hi' == |hay| || hay[hi'] != ned[ni] then -1 else FlexEnd(hay, ned, hi' + 1, ni + 1)
  }

  /** The specification of the outer loop of `_find_subseq_blank_flexible`. */
  function FlexFrom(hay: seq<string>, ned: seq<string>, start: nat): (s: Span)
    requires start <= |hay|
    ensures s.At? ==> start <= s.start <= s.end <= |hay|
    decreases |hay| - start
  {
    if start == |hay| then Nowhere
    else if FlexEnd(hay, ned, start, 0) != -1 then At(start, FlexEnd(hay, ned, start, 0))
    else FlexFrom(hay, ned, start + 1)
  }

  /** The specification of `_find_subseq_blank_flexible`. */
  function FindFlexible(hay: seq<string>, needle: seq<string>): (s: Span)
    ensures s.At? ==> s.start <= s.end <= |hay|
  {
    if needle == [] then At(0, 0) else FlexFrom(RStripAll(hay), RStripAll(needle), 0)
  }

  method FindSubseqBlankFlexible(haystack: seq<string>, needle: seq<string>) returns (found: Span)
    ensures found == FindFlexible(haystack, needle)
  {
    if needle == [] {
      return At(0, 0);
    }
    var hay, ned := RStripAll(haystack), RStripAll(needle);
    RStrippedBlanks(haystack);
    RStrippedBlanks(needle);
    var start := 0;
    while start < |hay|
      invariant 0 <= start <= |hay|
      invariant FlexFrom(hay, ned, 0) == FlexFrom(hay, ned, start)
    {
      var hi, ni := Walk(hay, ned, start);
      if ni == |ned| {
        return At(start, hi);
      }
      start := start + 1;
    }
    found := Nowhere;
  }

  /** After `rstrip` the blank lines are the empty ones. */
  predicate BlankMeansEmpty(lines: seq<string>) {
    forall i | 0 <= i < |lines| :: IsBlank(lines[i]) <==> lines[i] == []
  }

  lemma RStrippedBlanks(lines: seq<string>)
    ensures BlankMeansEmpty(RStripAll(lines))
  {
    forall i | 0 <= i < |lines|
      ensures IsBlank(RStripAll(lines)[i]) <==> RStripAll(lines)[i] == []
    {
      BlankRStrip(lines[i]);
    }
  }

  /** The walk from one start; `ni == |ned|` tells whether it reached the end of the needle. */
  method Walk(hay: seq<string>, ned: seq<string>, start: nat) returns (hi: nat, ni: nat)
    requires BlankMeansEmpty(hay) && BlankMeansEmpty(ned) && start <= |hay|
    ensures hi <= |hay| && ni <= |ned|
    ensures FlexEnd(hay, ned, start, 0) == if ni == |ned| then hi else -1
  {
    hi, ni := start, 0;
    while ni < |ned|
      invariant start <= hi <= |hay| && 0 <= ni <= |ned|
      invariant FlexEnd(hay, ned, start, 0) == FlexEnd(hay, ned, hi, ni)
      decreases |ned| - ni
    {
      if hi >= |hay| {
        break;
      }
      var wanted := ned[ni];
      if IsBlank(wanted) {
        if !IsBlank(hay[hi]) {
          break;
        }
        hi := PassBlanks(hay, hi);
        ni := ni + 1;
        continue;
      }
      hi := PassBlanks(hay, hi);
      if hi >= |hay| || hay[hi] != wanted {
        break;
      }
      hi := hi + 1;
      ni := ni + 1;
    }
  }

  /** The inner loops that step over blank file lines. */
  method PassBlanks(hay: seq<string>, start: nat) returns (hi: nat)
    requires BlankMeansEmpty(hay) && start <= |hay|
    ensures hi == SkipBlanks(hay, start)
  {
    hi := start;
    while hi < |hay| && IsBlank(hay[hi])
      invariant start <= hi <= |hay|
      invariant SkipBlanks(hay, start) == SkipBlanks(hay, hi)
    {
      hi := hi + 1;
    }
  }

  // ---------------------------------------------------------------- what the greedy walk finds

  lemma {:induction false} PrependBlanks(ned: seq<string>, hay: seq<string>, hi: nat, mid: nat, end: nat)
    requires hi <= mid <= end <= |hay|
    requires forall k | hi <= k < mid :: hay[k] == []
    requires Padded(ned, hay[mid..end])
    ensures Padded(ned, hay[hi..end])
    decreases mid - hi
  {
    if hi < mid {
      PrependBlanks(ned, hay, hi + 1, mid, end);
      assert hay[hi..end][1..] == hay[hi + 1..end];
    }
  }

  lemma PaddedCons(ned: seq<string>, hay: seq<string>, hi: nat, end: nat)
    requires hi < end <= |hay| && ned != []
    requires ned[0] == hay[hi] && Padded(ned[1..], hay[hi + 1..end])
    ensures Padded(ned, hay[hi..end])
  {
    assert hay[hi..end][1..] == hay[hi + 1..end];
  }

  /** Soundness: whatever the walk accepts is the needle with blank lines inserted. */
  lemma {:induction false} FlexEndSound(hay: seq<string>, ned: seq<string>, hi: nat, ni: nat)
    requires hi <= |hay| && ni <= |ned|
    requires FlexEnd(hay, ned, hi, ni) != -1
    ensures Padded(ned[ni..], hay[hi..FlexEnd(hay, ned, hi, ni)])
    decreases |ned| - ni
  {
    var end := FlexEnd(hay, ned, hi, ni);
    if ni == |ned| {
    } else {
      assert ned[ni..][1..] == ned[ni + 1..];
      var hi' := SkipBlanks(hay, hi);
      if ned[ni] == [] {
        FlexEndSound(hay, ned, hi', ni + 1);
        PrependBlanks(ned[ni + 1..], hay, hi + 1, hi', end);
        PaddedCons(ned[ni..], hay, hi, end);
      } else {
        FlexEndSound(hay, ned, hi' + 1, ni + 1);
        PaddedCons(ned[ni..], hay, hi', end);
        PrependBlanks(ned[ni..], hay, hi, hi', end);
      }
    }
  }

  /** The walk never ends on an inserted blank line. */
  lemma {:induction false} FlexEndTight(hay: seq<string>, ned: seq<string>, hi: nat, ni: nat)
    requires hi <= |hay| && ni < |ned|
    requires FlexEnd(hay, ned, hi, ni) != -1
    ensures hi < FlexEnd(hay, ned, hi, ni)
    ensures ned[|ned| - 1] != [] ==> hay[FlexEnd(hay, ned, hi, ni) - 1] != []
    decreases |ned| - ni
  {
    var next := if ned[ni] == [] then SkipBlanks(hay, hi) else SkipBlanks(hay, hi) + 1;
    if ni + 1 < |ned| {
      FlexEndTight(hay, ned, next, ni + 1);
    }
  }

  /** A needle that starts with a line that is not blank keeps matching when leading blanks are passed. */
  lemma {:induction false} PassLeadingBlanks(ned: seq<string>, hay: seq<string>, hi: nat, end: nat)
    requires hi <= end <= |hay|
    requires Padded(ned, hay[hi..end])
    requires ned != [] && ned[0] != []
    ensures SkipBlanks(hay, hi) < end && ned[0] == hay[SkipBlanks(hay, hi)]
    ensures Padded(ned[1..], hay[SkipBlanks(hay, hi) + 1..end])
    decreases end - hi
  {
    assert hi < end;
    assert hay[hi..end][0] == hay[hi];
    assert hay[hi..end][1..] == hay[hi + 1..end];
    if hay[hi] == [] {
      PassLeadingBlanks(ned, hay, hi + 1, end);
    }
  }

  /** When nothing is wanted any more, everything left is blank. */
  lemma {:induction false} OnlyBlanksLeft(hay: seq<string>, hi: nat, end: nat)
    requires hi <= end <= |hay|
    requires Padded([], hay[hi..end])
    ensures end <= SkipBlanks(hay, hi)
    decreases end - hi
  {
    if hi < end {
      assert hay[hi..end][0] == hay[hi];
      assert hay[hi..end][1..] == hay[hi + 1..end];
      OnlyBlanksLeft(hay, hi + 1, end);
    }
  }

  /** A wanted blank line takes at least one blank; the rest matches after some of the blanks. */
  lemma {:induction false} TakeBlank(ned: seq<string>, hay: seq<string>, hi: nat, end: nat) returns (mid: nat)
    requires hi <= end <= |hay|
    requires Padded(ned, hay[hi..end])
    requires ned != [] && ned[0] == []
    ensures hi < mid <= end && hay[hi] == []
    ensures mid <= SkipBlanks(hay, hi)
    ensures Padded(ned[1..], hay[mid..end])
    decreases end - hi
  {
    assert hi < end;
    assert hay[hi..end][0] == hay[hi];
    assert hay[hi..end][1..] == hay[hi + 1..end];
    if Padded(ned[1..], hay[hi + 1..end]) {
      mid := hi + 1;
    } else {
      mid := TakeBlank(ned, hay, hi + 1, end);
    }
  }

  lemma {:induction false} SkipBlanksFrom(hay: seq<string>, hi: nat, mid: nat)
    requires hi <= mid <= |hay| && mid <= SkipBlanks(hay, hi)
    ensures SkipBlanks(hay, mid) == SkipBlanks(hay, hi)
    decreases mid - hi
  {
    if hi < mid {
      SkipBlanksFrom(hay, hi + 1, mid);
    }
  }

  /** Completeness and greed: if the needle matches `hay[hi..end]`, the walk succeeds and reaches at least `end`. */
  lemma {:induction false} FlexEndComplete(hay: seq<string>, ned: seq<string>, hi: nat, ni: nat, end: nat)
    requires hi <= end <= |hay| && ni < |ned|
    requires NoAdjacentBlanks(ned)
    requires Padded(ned[ni..], hay[hi..end])
    requires ned[|ned| - 1] != [] ==> 0 < end && hay[end - 1] != []
    ensures end <= FlexEnd(hay, ned, hi, ni)
    decreases |ned| - ni, 1
  {
    assert ned[ni..][0] == ned[ni];
    assert ned[ni..][1..] == ned[ni + 1..];
    if ned[ni] == [] {
      CompletePastBlank(hay, ned, hi, ni, end);
    } else {
      var hi' := SkipBlanks(hay, hi);
      PassLeadingBlanks(ned[ni..], hay, hi, end);
      if ni + 1 == |ned| {
        OnlyBlanksLeft(hay, hi' + 1, end);
      } else {
        FlexEndComplete(hay, ned, hi' + 1, ni + 1, end);
      }
    }
  }

  lemma {:induction false} CompletePastBlank(hay: seq<string>, ned: seq<string>, hi: nat, ni: nat, end: nat)
    requires hi <= end <= |hay| && ni < |ned| && ned[ni] == []
    requires NoAdjacentBlanks(ned)
    requires Padded(ned[ni..], hay[hi..end])
    requires ned[|ned| - 1] != [] ==> 0 < end && hay[end - 1] != []
    ensures end <= FlexEnd(hay, ned, hi, ni)
    decreases |ned| - ni, 0
  {
    assert ned[ni..][0] == ned[ni];
    assert ned[ni..][1..] == ned[ni + 1..];
    var hi' := SkipBlanks(hay, hi);
    var mid := TakeBlank(ned[ni..], hay, hi, end);
    SkipBlanksFrom(hay, hi, mid);
    if ni + 1 == |ned| {
      OnlyBlanksLeft(hay, mid, end);
    } else {
      PassLeadingBlanks(ned[ni + 1..], hay, mid, end);
      PaddedCons(ned[ni + 1..], hay, hi', end);
      FlexEndComplete(hay, ned, hi', ni + 1, end);
    }
  }

  /** A needle with two adjacent blank lines defeats the walk from every position. */
  lemma {:induction false} AdjacentBlanksNeverMatch(hay: seq<string>, ned: seq<string>, hi: nat, ni: nat, b: nat)
    requires hi <= |hay| && ni <= b && b + 1 < |ned|
    requires ned[b] == [] && ned[b + 1] == []
    ensures FlexEnd(hay, ned, hi, ni) == -1
    decreases |ned| - ni
  {
    if hi < |hay| && FlexEnd(hay, ned, hi, ni) != -1 {
      var hi' := SkipBlanks(hay, hi);
      if ni < b {
        AdjacentBlanksNeverMatch(hay, ned, if ned[ni] == [] then hi' else hi' + 1, ni + 1, b);
      }
    }
  }

  // ---------------------------------------------------------------- exact characterisation

  /** `hay[start..end]` is a place where the blank-flexible matcher may put the needle. */
  predicate FlexAt(hay: seq<string>, ned: seq<string>, start: int, end: int)
    requires ned != []
  {
    0 <= start <= end <= |hay| && FlexMatch(ned, hay[start..end])
  }

  /**
   * For a needle without adjacent blank lines the matcher returns the leftmost start at which
   * the needle occurs with blank lines inserted, and the longest such occurrence there.
   * It returns nothing exactly when there is no occurrence at all.
   */
  lemma FlexibleExact(haystack: seq<string>, needle: seq<string>)
    requires needle != [] && NoAdjacentBlanks(RStripAll(needle))
    ensures var (hay, ned, s) := (RStripAll(haystack), RStripAll(needle), FindFlexible(haystack, needle));
      && (s == Nowhere <==> forall i, j :: !FlexAt(hay, ned, i, j))
      && (s.At? ==> FlexAt(hay, ned, s.start, s.end))
      && (s.At? ==> forall i, j | FlexAt(hay, ned, i, j) :: s.start < i || (s.start == i && j <= s.end))
  {
    FlexFromExact(RStripAll(haystack), RStripAll(needle), 0);
  }

  /** From one start the walk finds the longest occurrence there is. */
  lemma FlexEndExact(hay: seq<string>, ned: seq<string>, start: nat)
    requires start <= |hay| && ned != [] && NoAdjacentBlanks(ned)
    ensures var end := FlexEnd(hay, ned, start, 0);
      && (end != -1 ==> FlexAt(hay, ned, start, end))
      && forall j | FlexAt(hay, ned, start, j) :: j <= end
  {
    var end := FlexEnd(hay, ned, start, 0);
    assert ned[0..] == ned;
    if end != -1 {
      FlexEndSound(hay, ned, start, 0);
      FlexEndTight(hay, ned, start, 0);
    }
    forall j | FlexAt(hay, ned, start, j)
      ensures j <= end
    {
      FlexEndComplete(hay, ned, start, 0, j);
    }
  }

  lemma {:induction false} FlexFromExact(hay: seq<string>, ned: seq<string>, start: nat)
    requires start <= |hay| && ned != [] && NoAdjacentBlanks(ned)
    ensures var s := FlexFrom(hay, ned, start);
      && (s.At? ==> FlexAt(hay, ned, s.start, s.end))
      && forall i, j | start <= i && FlexAt(hay, ned, i, j) :: s.At? && (s.start < i || (s.start == i && j <= s.end))
    decreases |hay| - start
  {
    if start < |hay| {
      FlexFromExact(hay, ned, start + 1);
      FlexEndExact(hay, ned, start);
    }
  }

  /** A needle with two adjacent blank lines is never found, not even in itself. */
  lemma FlexibleNeverAdjacent(haystack: seq<string>, needle: seq<string>)
    requires !NoAdjacentBlanks(RStripAll(needle))
    ensures FindFlexible(haystack, needle) == Nowhere
  {
    var ned := RStripAll(needle);
    var b :| 0 < b < |ned| && ned[b - 1] == [] && ned[b] == [];
    FlexFromAdjacent(RStripAll(haystack), ned, 0, b - 1);
  }

  lemma {:induction false} FlexFromAdjacent(hay: seq<string>, ned: seq<string>, start: nat, b: nat)
    requires start <= |hay| && b + 1 < |ned| && ned[b] == [] && ned[b + 1] == []
    ensures FlexFrom(hay, ned, start) == Nowhere
    decreases |hay| - start
  {
    if start < |hay| {
      AdjacentBlanksNeverMatch(hay, ned, start, 0, b);
      FlexFromAdjacent(hay, ned, start + 1, b);
    }
  }

  // ---------------------------------------------------------------- the cascade

  /** The first exact occurrence, else the first right-stripped one, else -1. */
  function StrictIndex(source: seq<string>, old_: seq<string>): (idx: int)
    ensures idx == -1 || 0 <= idx <= |source| - |old_|
  {
    var exact := Find(source, old_);
    if exact >= 0 then exact else Find(RStripAll(source), RStripAll(old_))
  }

  /** Where a hunk's old side is found: exactly, else right-stripped, else blank-flexibly. */
  function Locate(source: seq<string>, old_: seq<string>): (s: Span)
    ensures s.At? ==> s.start <= s.end <= |source|
  {
    var idx := StrictIndex(source, old_);
    if idx >= 0 then At(idx, idx + |old_|) else FindFlexible(source, old_)
  }

  method FindStrict(source: seq<string>, oldSeq: seq<string>) returns (idx: int)
    ensures idx == StrictIndex(source, oldSeq)
  {
    idx := FindSubseq(source, oldSeq);
    if idx < 0 {
      idx := FindSubseqRStrip(source, oldSeq);
    }
  }

  lemma {:induction false} PaddedRefl(ned: seq<string>)
    ensures Padded(ned, ned)
  {
    if ned != [] {
      PaddedRefl(ned[1..]);
    }
  }

  lemma ExactIsStripped(source: seq<string>, needle: seq<string>, i: nat)
    requires MatchesAt(source, needle, i)
    ensures MatchesAt(RStripAll(source), RStripAll(needle), i)
  {
    var hay, ned := RStripAll(source), RStripAll(needle);
    forall k | 0 <= k < |needle|
      ensures hay[i..i + |needle|][k] == ned[k]
    {
      assert source[i..i + |needle|][k] == needle[k];
    }
    assert hay[i..i + |needle|] == ned;
  }

  lemma StrippedIsFlexible(source: seq<string>, needle: seq<string>, i: nat)
    requires needle != []
    requires MatchesAt(RStripAll(source), RStripAll(needle), i)
    ensures FlexAt(RStripAll(source), RStripAll(needle), i, i + |needle|)
  {
    PaddedRefl(RStripAll(needle));
  }

  /** Each matcher finds whatever the stricter one finds, at the same place or earlier. */
  lemma CascadeMonotone(source: seq<string>, needle: seq<string>)
    ensures Find(source, needle) != -1 ==>
      -1 < Find(RStripAll(source), RStripAll(needle)) <= Find(source, needle)
    ensures Find(RStripAll(source), RStripAll(needle)) != -1 && NoAdjacentBlanks(RStripAll(needle)) ==>
      FindFlexible(source, needle).At? &&
      FindFlexible(source, needle).start <= Find(RStripAll(source), RStripAll(needle))
  {
    if Find(source, needle) != -1 {
      ExactIsStripped(source, needle, Find(source, needle));
    }
    var stripped := Find(RStripAll(source), RStripAll(needle));
    if stripped != -1 && needle != [] && NoAdjacentBlanks(RStripAll(needle)) {
      StrippedIsFlexible(source, needle, stripped);
      FlexibleExact(source, needle);
    }
  }
}
