/** Order-preserving packing of review sections into chunks under a token cap. */
module Chunking {
  import opened Text
  import opened Tokens

  datatype Section = Section(path: string, content: string)

  type Group = seq<string>

  function Part(s: Section): string {
    "\n## FILE: " + s.path + "\n" + s.content + "\n"
  }

  /** The texts to pack: sections without content are skipped. */
  function Parts(sections: seq<Section>): seq<string> {
    if sections == [] then []
    else if sections[0].content == [] then Parts(sections[1..])
    else [Part(sections[0])] + Parts(sections[1..])
  }

  function Cap(requested: int): (cap: nat)
    ensures 20_000 <= cap <= 120_000
  {
    Max(20_000, Min(requested, 120_000))
  }

  function Weight(group: Group): nat {
    if group == [] then 0 else Weight(group[..|group| - 1]) + EstimateTokens(group[|group| - 1])
  }

  /** The specification of the loop: greedy packing of `parts` with the group `current` still open. */
  function Pack(parts: seq<string>, current: Group, cap: nat): seq<Group> {
    if parts == [] then if current == [] then [] else [current]
    else if current != [] && Weight(current) + EstimateTokens(parts[0]) > cap then
      [current] + Pack(parts[1..], [parts[0]], cap)
    else Pack(parts[1..], current + [parts[0]], cap)
  }

  function RenderGroups(groups: seq<Group>): (chunks: seq<string>)
    ensures |chunks| == |groups|
  {
    if groups == [] then [] else RenderGroups(groups[..|groups| - 1]) + [Join("\n", groups[|groups| - 1])]
  }

  lemma RenderSnoc(groups: seq<Group>, group: Group)
    ensures RenderGroups(groups + [group]) == RenderGroups(groups) + [Join("\n", group)]
  {
    assert (groups + [group])[..|groups|] == groups;
  }

  /** One turn of the loop, with `groups` closed and `current` open. */
  lemma PackStep(groups: seq<Group>, part: string, parts: seq<string>, current: Group, cap: nat)
    ensures groups + Pack([part] + parts, current, cap) ==
      if current != [] && Weight(current) + EstimateTokens(part) > cap
      then groups + [current] + Pack(parts, [] + [part], cap)
      else groups + Pack(parts, current + [part], cap)
  {
    assert ([part] + parts)[1..] == parts;
    var tail := Pack(parts, [part], cap);
    assert groups + ([current] + tail) == groups + [current] + tail;
    assert [] + [part] == [part];
  }

  lemma PartsStep(sections: seq<Section>, i: nat)
    requires i < |sections|
    ensures Parts(sections[i..]) ==
      if sections[i].content == [] then Parts(sections[i + 1..])
      else [Part(sections[i])] + Parts(sections[i + 1..])
  {
    assert sections[i..][1..] == sections[i + 1..];
  }

  const NO_CONTENT := "(No reviewable content found.)"

  /** The groups of sections that `ChunkSections` writes as chunks. */
  function Groups(sections: seq<Section>, chunkTokenCap: int): seq<Group> {
    Pack(Parts(sections), [], Cap(chunkTokenCap))
  }

  function Chunks(sections: seq<Section>, chunkTokenCap: int): seq<string> {
    var groups := Groups(sections, chunkTokenCap);
    if groups == [] then [NO_CONTENT] else RenderGroups(groups)
  }

  method ChunkSections(sections: seq<Section>, chunkTokenCap: int) returns (chunks: seq<string>)
    ensures chunks == Chunks(sections, chunkTokenCap)
  {
    var cap := Cap(chunkTokenCap);
    chunks := [];
    ghost var groups: seq<Group> := [];
    var currentParts: Group, currentTokens := [], 0;
    for i := 0 to |sections|
      invariant currentTokens == Weight(currentParts)
      invariant chunks == RenderGroups(groups)
      invariant Pack(Parts(sections), [], cap) == groups + Pack(Parts(sections[i..]), currentParts, cap)
    {
      PartsStep(sections, i);
      if sections[i].content == [] {
        continue;
      }
      var part := Part(sections[i]);
      var partTokens := EstimateTokens(part);
      PackStep(groups, part, Parts(sections[i + 1..]), currentParts, cap);
      if currentParts != [] && currentTokens + partTokens > cap {
        RenderSnoc(groups, currentParts);
        chunks := chunks + [Join("\n", currentParts)];
        groups := groups + [currentParts];
        currentParts, currentTokens := [], 0;
      }
      WeightSnoc(currentParts, part);
      currentParts := currentParts + [part];
      currentTokens := currentTokens + partTokens;
    }
    if currentParts != [] {
      RenderSnoc(groups, currentParts);
      chunks := chunks + [Join("\n", currentParts)];
      groups := groups + [currentParts];
    }
    assert Pack(Parts(sections), [], cap) == groups;
    if chunks == [] {
      chunks := [NO_CONTENT];
    }
  }

  // ---------------------------------------------------------------- what a split is

  function Flatten(groups: seq<Group>): seq<string> {
    if groups == [] then [] else groups[0] + Flatten(groups[1..])
  }

  /** A group that may stand: nothing can be done about a single oversized part. */
  predicate Fits(group: Group, cap: nat) {
    |group| <= 1 || Weight(group) <= cap
  }

  /** An order-preserving split of `parts` into groups that each fit. */
  predicate IsSplit(groups: seq<Group>, parts: seq<string>, cap: nat) {
    && Flatten(groups) == parts
    && forall g | g in groups :: Fits(g, cap)
  }

  lemma WeightSnoc(group: Group, part: string)
    ensures Weight(group + [part]) == Weight(group) + EstimateTokens(part)
  {
    assert (group + [part])[..|group|] == group;
  }

  lemma {:induction false} PackFlattens(parts: seq<string>, current: Group, cap: nat)
    ensures Flatten(Pack(parts, current, cap)) == current + parts
    decreases |parts|
  {
    if parts == [] {
      assert current != [] ==> [current][1..] == [];
      assert current + [] == current;
    } else if current != [] && Weight(current) + EstimateTokens(parts[0]) > cap {
      var rest := Pack(parts[1..], [parts[0]], cap);
      PackFlattens(parts[1..], [parts[0]], cap);
      assert ([current] + rest)[1..] == rest;
      assert [parts[0]] + parts[1..] == parts;
    } else {
      PackFlattens(parts[1..], current + [parts[0]], cap);
      assert current + [parts[0]] + parts[1..] == current + parts;
    }
  }

  lemma {:induction false} PackFits(parts: seq<string>, current: Group, cap: nat)
    requires Fits(current, cap)
    ensures forall g | g in Pack(parts, current, cap) :: g != [] && Fits(g, cap)
    decreases |parts|
  {
    if parts != [] {
      WeightSnoc(current, parts[0]);
      if current != [] && Weight(current) + EstimateTokens(parts[0]) > cap {
        PackFits(parts[1..], [parts[0]], cap);
      } else {
        PackFits(parts[1..], current + [parts[0]], cap);
      }
    }
  }

  /** The packing is a split: every part lands in exactly one group, in order, and only single parts exceed the cap. */
  lemma PackIsSplit(parts: seq<string>, cap: nat)
    ensures IsSplit(Pack(parts, [], cap), parts, cap)
    ensures forall g | g in Pack(parts, [], cap) :: g != []
  {
    PackFlattens(parts, [], cap);
    PackFits(parts, [], cap);
    assert [] + parts == parts;
  }

  // ---------------------------------------------------------------- optimality

  /** The lighter open group stays ahead, and by at most one group. */
  lemma {:induction false} StaysAhead(parts: seq<string>, light: Group, heavy: Group, cap: nat)
    requires Weight(light) <= Weight(heavy) && heavy != []
    ensures |Pack(parts, light, cap)| <= |Pack(parts, heavy, cap)| <= |Pack(parts, light, cap)| + 1
    decreases |parts|
  {
    if parts != [] {
      var p := parts[0];
      WeightSnoc(light, p);
      WeightSnoc(heavy, p);
      WeightSnoc([], p);
      assert [] + [p] == [p];
      if Weight(heavy) + EstimateTokens(p) <= cap {
        StaysAhead(parts[1..], light + [p], heavy + [p], cap);
      } else if light == [] || Weight(light) + EstimateTokens(p) <= cap {
        StaysAhead(parts[1..], [p], light + [p], cap);
      }
    }
  }

  lemma {:induction false} WeightOfPrefix(group: Group, k: nat)
    requires k <= |group|
    ensures Weight(group[..k]) <= Weight(group)
  {
    if k < |group| {
      assert group[..|group| - 1][..k] == group[..k];
      WeightOfPrefix(group[..|group| - 1], k);
    } else {
      assert group[..k] == group;
    }
  }

  /** Greedy packing takes a whole fitting group into its open group. */
  lemma {:induction false} TakesWholeGroup(group: Group, k: nat, rest: seq<string>, cap: nat)
    requires Fits(group, cap) && k <= |group|
    ensures Pack(group[k..] + rest, group[..k], cap) == Pack(rest, group, cap)
    decreases |group| - k
  {
    if k == |group| {
      assert group[k..] + rest == rest && group[..k] == group;
    } else {
      WeightOfPrefix(group, k + 1);
      WeightSnoc(group[..k], group[k]);
      assert group[..k] + [group[k]] == group[..k + 1];
      assert (group[k..] + rest)[1..] == group[k + 1..] + rest;
      TakesWholeGroup(group, k + 1, rest, cap);
    }
  }

  /** No order-preserving split into fitting groups uses fewer groups than the greedy packing. */
  lemma {:induction false} GreedyIsOptimal(groups: seq<Group>, parts: seq<string>, cap: nat)
    requires IsSplit(groups, parts, cap)
    ensures |Pack(parts, [], cap)| <= |groups|
  {
    if groups != [] {
      var group, rest := groups[0], Flatten(groups[1..]);
      assert group in groups;
      TakesWholeGroup(group, 0, rest, cap);
      assert group[0..] == group && group[..0] == [];
      if group != [] {
        StaysAhead(rest, [], group, cap);
      }
      GreedyIsOptimal(groups[1..], rest, cap);
    }
  }

  /** Every chunk but the last is closed only because the next part would not fit. */
  lemma {:induction false} ClosedBecauseFull(parts: seq<string>, current: Group, cap: nat, i: nat)
    requires Fits(current, cap)
    requires i + 1 < |Pack(parts, current, cap)|
    ensures var groups := Pack(parts, current, cap);
      groups[i + 1] != [] && Weight(groups[i]) + EstimateTokens(groups[i + 1][0]) > cap
    decreases |parts|
  {
    if parts != [] {
      WeightSnoc(current, parts[0]);
      if current != [] && Weight(current) + EstimateTokens(parts[0]) > cap {
        if i == 0 {
          FirstGroupExtends(parts[1..], [parts[0]], cap);
        } else {
          ClosedBecauseFull(parts[1..], [parts[0]], cap, i - 1);
        }
      } else {
        ClosedBecauseFull(parts[1..], current + [parts[0]], cap, i);
      }
    }
  }

  lemma {:induction false} FirstGroupExtends(parts: seq<string>, current: Group, cap: nat)
    requires current != []
    ensures Pack(parts, current, cap) != [] && current <= Pack(parts, current, cap)[0]
    decreases |parts|
  {
    if parts != [] && !(Weight(current) + EstimateTokens(parts[0]) > cap) {
      FirstGroupExtends(parts[1..], current + [parts[0]], cap);
    }
  }

  // ---------------------------------------------------------------- the tokens of a written chunk

  /** The separators can lift a chunk over the sum of its parts, by a quarter token for each. */
  lemma {:induction false} ChunkTokens(group: Group)
    requires group != []
    ensures |Join("\n", group)| <= 4 * Weight(group) + |group| - 1
    ensures EstimateTokens(Join("\n", group)) <= Weight(group) + (|group| + 2) / 4
  {
    JoinLength(group);
    LengthAtMostWeight(group);
  }

  function Length(group: Group): nat {
    if group == [] then 0 else Length(group[..|group| - 1]) + |group[|group| - 1]|
  }

  lemma {:induction false} LengthAtMostWeight(group: Group)
    ensures Length(group) <= 4 * Weight(group)
  {
    if group != [] {
      LengthAtMostWeight(group[..|group| - 1]);
    }
  }

  lemma {:induction false} LengthCons(group: Group)
    requires group != []
    ensures Length(group) == |group[0]| + Length(group[1..])
  {
    if |group| > 1 {
      LengthCons(group[..|group| - 1]);
      assert group[..|group| - 1][1..] == group[1..][..|group| - 2];
    }
  }

  lemma {:induction false} JoinLength(group: Group)
    requires group != []
    ensures |Join("\n", group)| == Length(group) + |group| - 1
  {
    LengthCons(group);
    if |group| > 1 {
      JoinLength(group[1..]);
    }
  }

  /** A written chunk fits exactly when its sections and separators have no more than four characters a token. */
  lemma FitsIff(group: Group, cap: nat)
    requires group != [] && cap >= 1
    ensures EstimateTokens(Join("\n", group)) <= cap <==> Length(group) + |group| - 1 <= 4 * cap
  {
    JoinLength(group);
  }

  lemma {:induction false} RenderedAt(groups: seq<Group>, i: nat)
    requires i < |groups|
    ensures RenderGroups(groups)[i] == Join("\n", groups[i])
  {
    if i < |groups| - 1 {
      RenderedAt(groups[..|groups| - 1], i);
    }
  }

  predicate AllFit(chunks: seq<string>, cap: nat) {
    forall i | 0 <= i < |chunks| :: EstimateTokens(chunks[i]) <= cap
  }

  /**
   * The chunks are all within the budget if and only if no group of sections has, together with the
   * separators between them, more than four characters for each token of the cap.
   */
  lemma ChunksFitIff(sections: seq<Section>, chunkTokenCap: int)
    ensures var (groups, cap) := (Groups(sections, chunkTokenCap), Cap(chunkTokenCap));
      AllFit(Chunks(sections, chunkTokenCap), cap) <==>
      forall i | 0 <= i < |groups| :: Length(groups[i]) + |groups[i]| - 1 <= 4 * cap
  {
    var groups, cap := Groups(sections, chunkTokenCap), Cap(chunkTokenCap);
    PackIsSplit(Parts(sections), cap);
    forall i | 0 <= i < |groups|
      ensures EstimateTokens(RenderGroups(groups)[i]) <= cap <==> Length(groups[i]) + |groups[i]| - 1 <= 4 * cap
    {
      assert groups[i] in groups;
      RenderedAt(groups, i);
      FitsIff(groups[i], cap);
    }
    assert RenderGroups([]) == [];
  }

  /** A part that leaves room for a separator in the characters its last token stands for. */
  predicate Roomy(part: string, cap: nat) {
    |part| % 4 != 0 && |part| <= 4 * cap
  }

  lemma {:induction false} RoomyLength(group: Group, cap: nat)
    requires forall p | p in group :: Roomy(p, cap)
    ensures Length(group) + |group| <= 4 * Weight(group)
  {
    if group != [] {
      assert group[|group| - 1] in group;
      RoomyLength(group[..|group| - 1], cap);
    }
  }

  lemma {:induction false} InFlatten(groups: seq<Group>, group: Group, part: string)
    requires group in groups && part in group
    ensures part in Flatten(groups)
  {
    if group != groups[0] {
      InFlatten(groups[1..], group, part);
    }
  }

  /**
   * What a caller can see to: chunks stay within the budget when no section is too long for one and
   * the length of none, with its heading, is a multiple of four.
   */
  lemma RoomySectionsFit(sections: seq<Section>, chunkTokenCap: int)
    requires forall p | p in Parts(sections) :: Roomy(p, Cap(chunkTokenCap))
    ensures AllFit(Chunks(sections, chunkTokenCap), Cap(chunkTokenCap))
  {
    var groups, cap := Groups(sections, chunkTokenCap), Cap(chunkTokenCap);
    PackIsSplit(Parts(sections), cap);
    forall i | 0 <= i < |groups|
      ensures Length(groups[i]) + |groups[i]| - 1 <= 4 * cap
    {
      var group := groups[i];
      assert group in groups;
      forall p | p in group
        ensures Roomy(p, cap)
      {
        InFlatten(groups, group, p);
      }
      RoomyLength(group, cap);
      if |group| == 1 {
        OneRoomyPart(group, cap);
      }
    }
    ChunksFitIff(sections, chunkTokenCap);
  }

  lemma OneRoomyPart(group: Group, cap: nat)
    requires |group| == 1 && Roomy(group[0], cap)
    ensures Length(group) <= 4 * cap
  {
    assert Length(group[..0]) == 0;
  }

  // ---------------------------------------------------------------- a condition on the sections alone

  lemma {:induction false} FlattenAppend(a: seq<Group>, b: seq<Group>)
    ensures Flatten(a + b) == Flatten(a) + Flatten(b)
  {
    if a == [] {
      assert a + b == b;
    } else {
      assert (a + b)[1..] == a[1..] + b;
      FlattenAppend(a[1..], b);
    }
  }

  /** Every group is a run of consecutive parts. */
  lemma GroupIsRun(groups: seq<Group>, i: nat) returns (a: nat)
    requires i < |groups|
    ensures a + |groups[i]| <= |Flatten(groups)| && Flatten(groups)[a..a + |groups[i]|] == groups[i]
  {
    var before, after := groups[..i], groups[i + 1..];
    a := |Flatten(before)|;
    assert groups == before + ([groups[i]] + after);
    FlattenAppend(before, [groups[i]] + after);
    assert ([groups[i]] + after)[1..] == after;
    assert Flatten(groups) == Flatten(before) + (groups[i] + Flatten(after));
  }

  lemma {:induction false} PartsAppend(a: seq<Section>, b: seq<Section>)
    ensures Parts(a + b) == Parts(a) + Parts(b)
  {
    if a == [] {
      assert a + b == b;
    } else {
      assert (a + b)[0] == a[0] && (a + b)[1..] == a[1..] + b;
      PartsAppend(a[1..], b);
    }
  }

  /** The first `k` parts are those of some first sections. */
  lemma {:induction false} FirstParts(sections: seq<Section>, k: nat) returns (hi: nat)
    requires k <= |Parts(sections)|
    ensures hi <= |sections| && Parts(sections[..hi]) == Parts(sections)[..k]
    ensures Parts(sections[hi..]) == Parts(sections)[k..]
  {
    if k == 0 {
      hi := 0;
      assert sections[0..] == sections && sections[..0] == [];
    } else {
      var init, last := sections[..|sections| - 1], sections[|sections| - 1];
      assert sections == init + [last] && [last][1..] == [];
      PartsAppend(init, [last]);
      if k == |Parts(sections)| {
        hi := |sections|;
        assert sections[..hi] == sections && sections[hi..] == [];
      } else {
        hi := FirstParts(init, k);
        assert sections[..hi] == init[..hi] && sections[hi..] == init[hi..] + [last];
        PartsAppend(init[hi..], [last]);
      }
    }
  }

  /** A run of consecutive parts is the parts of consecutive sections. */
  lemma RunOfSections(sections: seq<Section>, a: nat, b: nat) returns (lo: nat, hi: nat)
    requires a <= b <= |Parts(sections)|
    ensures lo <= hi <= |sections| && Parts(sections[lo..hi]) == Parts(sections)[a..b]
  {
    hi := FirstParts(sections, b);
    lo := FirstParts(sections[..hi], a);
    assert sections[..hi][lo..] == sections[lo..hi];
  }

  /** The parts of the sections from `lo` to `hi`, if they can be one group, make a chunk within the budget. */
  predicate RunFits(sections: seq<Section>, lo: nat, hi: nat, cap: nat)
    requires lo <= hi <= |sections|
  {
    var run := Parts(sections[lo..hi]);
    run != [] && Fits(run, cap) ==> Length(run) + |run| - 1 <= 4 * cap
  }

  predicate AllRunsFit(sections: seq<Section>, cap: nat) {
    forall lo, hi | 0 <= lo <= hi <= |sections| :: RunFits(sections, lo, hi, cap)
  }

  lemma GroupsFit(sections: seq<Section>, chunkTokenCap: int, i: nat)
    requires AllRunsFit(sections, Cap(chunkTokenCap)) && i < |Groups(sections, chunkTokenCap)|
    ensures var group := Groups(sections, chunkTokenCap)[i];
      Length(group) + |group| - 1 <= 4 * Cap(chunkTokenCap)
  {
    var groups, cap := Groups(sections, chunkTokenCap), Cap(chunkTokenCap);
    PackIsSplit(Parts(sections), cap);
    assert groups[i] in groups;
    var a := GroupIsRun(groups, i);
    var lo, hi := RunOfSections(sections, a, a + |groups[i]|);
    assert RunFits(sections, lo, hi, cap);
  }

  lemma RunsOfRun(sections: seq<Section>, cap: nat, lo: nat, hi: nat)
    requires lo <= hi <= |sections| && AllRunsFit(sections, cap)
    ensures AllRunsFit(sections[lo..hi], cap)
  {
    var some := sections[lo..hi];
    forall l, h | 0 <= l <= h <= |some|
      ensures RunFits(some, l, h, cap)
    {
      SliceOfSlice(sections, lo, hi, l, h);
      assert RunFits(sections, lo + l, lo + h, cap);
    }
  }

  lemma SliceOfSlice<T>(s: seq<T>, lo: nat, hi: nat, l: nat, h: nat)
    requires lo <= hi <= |s| && l <= h <= hi - lo
    ensures s[lo..hi][l..h] == s[lo + l..lo + h]
  {
    var a, b := s[lo..hi][l..h], s[lo + l..lo + h];
    assert forall k | 0 <= k < h - l :: a[k] == s[lo + l + k] && b[k] == s[lo + l + k];
  }

  lemma WholeRunPacked(run: seq<string>, cap: nat)
    requires run != [] && Fits(run, cap)
    ensures Pack(run, [], cap) == [run]
  {
    TakesWholeGroup(run, 0, [], cap);
    assert run[0..] + [] == run && run[..0] == [];
  }

  lemma RunFitsIfChunked(sections: seq<Section>, chunkTokenCap: int, lo: nat, hi: nat)
    requires lo <= hi <= |sections|
    requires AllFit(Chunks(sections[lo..hi], chunkTokenCap), Cap(chunkTokenCap))
    ensures RunFits(sections, lo, hi, Cap(chunkTokenCap))
  {
    var run, cap := Parts(sections[lo..hi]), Cap(chunkTokenCap);
    if run != [] && Fits(run, cap) {
      WholeRunPacked(run, cap);
      ChunksFitIff(sections[lo..hi], chunkTokenCap);
      assert Groups(sections[lo..hi], chunkTokenCap)[0] == run;
    }
  }

  /**
   * Every stretch of the sections is chunked within the budget if and only if no stretch that the
   * token count takes for one chunk has, with its separators, more than four characters a token.
   */
  lemma StretchesFitIff(sections: seq<Section>, chunkTokenCap: int)
    ensures var cap := Cap(chunkTokenCap);
      (forall lo, hi | 0 <= lo <= hi <= |sections| :: AllFit(Chunks(sections[lo..hi], chunkTokenCap), cap))
      <==> AllRunsFit(sections, cap)
  {
    var cap := Cap(chunkTokenCap);
    if AllRunsFit(sections, cap) {
      forall lo, hi | 0 <= lo <= hi <= |sections|
        ensures AllFit(Chunks(sections[lo..hi], chunkTokenCap), cap)
      {
        StretchFits(sections, chunkTokenCap, lo, hi);
      }
    } else {
      var lo, hi :| 0 <= lo <= hi <= |sections| && !RunFits(sections, lo, hi, cap);
      if AllFit(Chunks(sections[lo..hi], chunkTokenCap), cap) {
        RunFitsIfChunked(sections, chunkTokenCap, lo, hi);
      }
    }
  }

  lemma StretchFits(sections: seq<Section>, chunkTokenCap: int, lo: nat, hi: nat)
    requires lo <= hi <= |sections| && AllRunsFit(sections, Cap(chunkTokenCap))
    ensures AllFit(Chunks(sections[lo..hi], chunkTokenCap), Cap(chunkTokenCap))
  {
    var some := sections[lo..hi];
    RunsOfRun(sections, Cap(chunkTokenCap), lo, hi);
    forall i | 0 <= i < |Groups(some, chunkTokenCap)|
      ensures var group := Groups(some, chunkTokenCap)[i]; Length(group) + |group| - 1 <= 4 * Cap(chunkTokenCap)
    {
      GroupsFit(some, chunkTokenCap, i);
    }
    ChunksFitIff(some, chunkTokenCap);
  }

  /** Two sections of 10,000 tokens fill a cap of 20,000 but are written as one chunk of 20,001. */
  lemma WrittenChunkOverCap(s: Section, t: Section)
    requires s.content != [] && |s.path| + |s.content| == 39_988
    requires t.content != [] && |t.path| + |t.content| == 39_988
    ensures Chunks([s, t], 0) == [Part(s) + "\n" + Part(t)]
    ensures EstimateTokens(Chunks([s, t], 0)[0]) == Cap(0) + 1
  {
    var a, b := Part(s), Part(t);
    assert [s, t][1..] == [t] && [t][1..] == [];
    assert Parts([]) == [] && Parts([t]) == [b];
    assert Parts([s, t]) == [a, b];
    TwoPartsPacked(a, b);
    assert RenderGroups([[a, b]]) == [Join("\n", [a, b])] by { RenderedAt([[a, b]], 0); }
    assert [a, b][1..] == [b];
    assert Join("\n", [a, b]) == a + "\n" + b;
  }

  lemma TwoPartsPacked(a: string, b: string)
    requires |a| == |b| == 40_000
    ensures Pack([a, b], [], Cap(0)) == [[a, b]]
  {
    WeightSnoc([], a);
    WeightSnoc([a], b);
    assert [] + [a] == [a] && [a] + [b] == [a, b];
    assert [a, b][1..] == [b] && [b][1..] == [];
    assert Pack([], [a, b], Cap(0)) == [[a, b]];
    assert Pack([b], [a], Cap(0)) == [[a, b]];
  }
}
