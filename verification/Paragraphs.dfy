/** Splitting a text at blank lines and joining it again. */
module Paragraphs {
  import opened Text

  /** The index of the first "\n\n", or the length of the text. */
  function FirstGap(s: string): (k: nat)
    ensures k <= |s|
    ensures k < |s| ==> k + 2 <= |s| && s[k] == '\n' && s[k + 1] == '\n'
  {
    if |s| < 2 then |s|
    else if s[0] == '\n' && s[1] == '\n' then 0
    else 1 + FirstGap(s[1..])
  }

  /** `text.split("\n\n")`. */
  function SplitParas(s: string): (paras: seq<string>)
    ensures paras != []
    decreases |s|
  {
    var k := FirstGap(s);
    if k == |s| then [s] else [s[..k]] + SplitParas(s[k + 2..])
  }

  const GAP := "\n\n"

  /** No gap inside, and no line feed at the end that would run into the following gap. */
  predicate Inner(para: string) {
    FirstGap(para) == |para| && (para != [] ==> para[|para| - 1] != '\n')
  }

  /** What splitting yields: only the last paragraph may end in a line feed. */
  predicate Clean(paras: seq<string>) {
    paras != [] ==>
      && FirstGap(paras[|paras| - 1]) == |paras[|paras| - 1]|
      && forall i | 0 <= i < |paras| - 1 :: Inner(paras[i])
  }

  lemma {:induction false} PrefixInner(s: string)
    ensures FirstGap(s) < |s| ==> Inner(s[..FirstGap(s)])
  {
    var k := FirstGap(s);
    if k < |s| && k > 0 {
      PrefixInner(s[1..]);
      var a, b := s[..k], s[1..][..k - 1];
      assert a[1..] == b;
      if k == 1 {
        assert a == [s[0]];
      }
    }
  }

  lemma {:induction false} FirstGapAppend(para: string, rest: string)
    requires Inner(para)
    ensures FirstGap(para + (GAP + rest)) == |para|
  {
    var s := para + (GAP + rest);
    if para != [] {
      assert s[1..] == para[1..] + (GAP + rest);
      if |para| == 1 {
        assert FirstGap(para[1..]) == 0;
      } else {
        assert s[0] == para[0] && s[1] == para[1];
      }
      FirstGapAppend(para[1..], rest);
    }
  }

  lemma GapParts(s: string)
    requires FirstGap(s) < |s|
    ensures s == s[..FirstGap(s)] + (GAP + s[FirstGap(s) + 2..])
  {
    var k := FirstGap(s);
    assert GAP == [s[k], s[k + 1]];
    TakeTwoOut(s, k);
  }

  lemma TakeTwoOut(s: string, k: nat)
    requires k + 2 <= |s|
    ensures s == s[..k] + ([s[k], s[k + 1]] + s[k + 2..])
  {
  }

  lemma JoinPair(para: string, rest: seq<string>)
    requires rest != []
    ensures Join(GAP, [para] + rest) == para + (GAP + Join(GAP, rest))
  {
    assert ([para] + rest)[1..] == rest;
  }

  lemma {:induction false} SplitClean(s: string)
    ensures Clean(SplitParas(s))
    ensures Join(GAP, SplitParas(s)) == s
    decreases |s|
  {
    var k := FirstGap(s);
    if k < |s| {
      var rest := s[k + 2..];
      SplitClean(rest);
      PrefixInner(s);
      CleanCons(s[..k], SplitParas(rest));
      JoinPair(s[..k], SplitParas(rest));
      GapParts(s);
    }
  }

  lemma CleanCons(para: string, rest: seq<string>)
    requires Inner(para) && Clean(rest)
    ensures Clean([para] + rest)
  {
    var all := [para] + rest;
    assert rest != [] ==> all[|all| - 1] == rest[|rest| - 1];
  }

  lemma CleanTail(paras: seq<string>)
    requires Clean(paras) && |paras| > 1
    ensures Inner(paras[0]) && Clean(paras[1..])
  {
  }

  lemma SplitFirst(para: string, rest: string)
    requires Inner(para)
    ensures SplitParas(para + (GAP + rest)) == [para] + SplitParas(rest)
  {
    var s := para + (GAP + rest);
    FirstGapAppend(para, rest);
    assert s[..|para|] == para && s[|para| + 2..] == rest;
  }

  lemma JoinFirst(paras: seq<string>)
    requires |paras| > 1
    ensures Join(GAP, paras) == paras[0] + (GAP + Join(GAP, paras[1..]))
  {
  }

  lemma SplitSingle(paras: seq<string>)
    requires Clean(paras) && |paras| == 1
    ensures SplitParas(Join(GAP, paras)) == paras
  {
  }

  lemma {:induction false} SplitJoin(paras: seq<string>)
    requires Clean(paras) && paras != []
    ensures SplitParas(Join(GAP, paras)) == paras
    decreases |paras|
  {
    if |paras| == 1 {
      SplitSingle(paras);
    } else {
      CleanTail(paras);
      JoinFirst(paras);
      SplitFirst(paras[0], Join(GAP, paras[1..]));
      SplitJoin(paras[1..]);
      assert [paras[0]] + paras[1..] == paras;
    }
  }

  // ---------------------------------------------------------------- subsequences

  predicate IsSubseq<T(==)>(a: seq<T>, b: seq<T>) {
    || a == []
    || (b != [] && ((a[0] == b[0] && IsSubseq(a[1..], b[1..])) || IsSubseq(a, b[1..])))
  }

  lemma SubseqSkip<T>(a: seq<T>, b: seq<T>)
    requires b != [] && IsSubseq(a, b[1..])
    ensures IsSubseq(a, b)
  {
  }

  lemma {:induction false} SubseqTrans<T>(a: seq<T>, b: seq<T>, c: seq<T>)
    requires IsSubseq(a, b) && IsSubseq(b, c)
    ensures IsSubseq(a, c)
    decreases |b| + |c|
  {
    if a != [] {
      if b[0] == c[0] && IsSubseq(b[1..], c[1..]) {
        if a[0] == b[0] && IsSubseq(a[1..], b[1..]) {
          SubseqTrans(a[1..], b[1..], c[1..]);
        } else {
          SubseqTrans(a, b[1..], c[1..]);
        }
      } else {
        SubseqTrans(a, b, c[1..]);
      }
    }
  }

  lemma {:induction false} SubseqMember<T>(a: seq<T>, b: seq<T>, x: T)
    requires IsSubseq(a, b) && x in a
    ensures x in b
    decreases |b|
  {
    if a[0] == b[0] && IsSubseq(a[1..], b[1..]) {
      if x != a[0] {
        SubseqMember(a[1..], b[1..], x);
      }
    } else {
      SubseqMember(a, b[1..], x);
    }
  }

  /** Any subsequence of what splitting yields would be split in the same way again. */
  lemma {:induction false} SubseqClean(a: seq<string>, b: seq<string>)
    requires IsSubseq(a, b) && Clean(b)
    ensures Clean(a)
    decreases |b|
  {
    if a != [] {
      if |b| > 1 {
        CleanTail(b);
      }
      if a[0] == b[0] && IsSubseq(a[1..], b[1..]) {
        if a[1..] != [] {
          SubseqClean(a[1..], b[1..]);
          CleanCons(a[0], a[1..]);
          assert [a[0]] + a[1..] == a;
        }
      } else {
        SubseqClean(a, b[1..]);
      }
    }
  }

  lemma {:induction false} JoinCons(para: string, rest: seq<string>)
    ensures |Join(GAP, rest)| <= |Join(GAP, [para] + rest)|
  {
    assert ([para] + rest)[1..] == rest;
  }

  lemma {:induction false} SubseqShorter(a: seq<string>, b: seq<string>)
    requires IsSubseq(a, b)
    ensures |Join(GAP, a)| <= |Join(GAP, b)|
    decreases |b|
  {
    if a != [] {
      assert [b[0]] + b[1..] == b;
      JoinCons(b[0], b[1..]);
      if a[0] == b[0] && IsSubseq(a[1..], b[1..]) {
        SubseqShorter(a[1..], b[1..]);
      } else {
        SubseqShorter(a, b[1..]);
      }
    }
  }

  /** The paragraphs of a text; the empty text has none. */
  function Paras(s: string): seq<string> {
    if s == [] then [] else SplitParas(s)
  }

  /** Keeping some paragraphs of a text keeps them as paragraphs. */
  lemma ParasOfKept(text: string, kept: seq<string>)
    requires IsSubseq(kept, SplitParas(text))
    ensures Paras(Join(GAP, kept)) == if Join(GAP, kept) == [] then [] else kept
    ensures |Join(GAP, kept)| <= |text|
    ensures text != [] ==> IsSubseq(Paras(Join(GAP, kept)), Paras(text))
  {
    SplitClean(text);
    SubseqClean(kept, SplitParas(text));
    SubseqShorter(kept, SplitParas(text));
    if kept != [] {
      SplitJoin(kept);
    }
  }

  // ---------------------------------------------------------------- substrings

  /** `part in s`. */
  predicate Contains(s: string, part: string) {
    StartsWith(s, part) || (s != [] && Contains(s[1..], part))
  }

  lemma {:induction false} ContainsFrom(s: string, k: nat, part: string)
    requires k <= |s| && Contains(s[k..], part)
    ensures Contains(s, part)
    decreases k
  {
    if k > 0 {
      assert s[k..] == s[1..][k - 1..];
      ContainsFrom(s[1..], k - 1, part);
    } else {
      assert s[0..] == s;
    }
  }

  /** A paragraph that starts with `part` betrays that the text contains it. */
  lemma {:induction false} ParagraphStart(s: string, para: string, part: string)
    requires para in SplitParas(s) && StartsWith(para, part)
    ensures Contains(s, part)
    decreases |s|
  {
    var k := FirstGap(s);
    if k == |s| {
    } else if para == s[..k] {
      assert s[..|part|] == s[..k][..|part|];
    } else {
      assert para in SplitParas(s[k + 2..]);
      ParagraphStart(s[k + 2..], para, part);
      ContainsFrom(s, k + 2, part);
    }
  }
}
