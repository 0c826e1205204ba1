/** Group-by aggregation of benchmark runs, over the reals. */
module Aggregation {
  import opened Options

  // ---------------------------------------------------------------- rows and totals

  /** A run's accuracy: mean score, number of scored samples and sample standard deviation. */
  datatype Stat = Stat(acc: Option<real>, n: nat, std: real)

  /** The seven measures a row averages: paired samples, and time, tokens and calls of either framework. */
  datatype Measures = Measures(paired: real, lgTime: real, gmTime: real, lgTok: real, gmTok: real, lgCalls: real, gmCalls: real)

  datatype Labels = Labels(model: string, test: string, dataset: string)

  datatype Row = Row(key: string, labels: Labels, measures: Measures, lgErrors: int, gmErrors: int, lg: Stat, gm: Stat)

  /** Accumulated accuracy: sum of scores, number of scores, sum of squared deviations. */
  datatype Acc = Acc(sum: real, n: nat, varSum: real)

  datatype Totals = Totals(count: nat, measures: Measures, lgErrors: int, gmErrors: int, lg: Acc, gm: Acc)

  datatype Bucket = Bucket(key: string, labels: Labels, totals: Totals)

  const NO_MEASURES := Measures(0.0, 0.0, 0.0, 0.0, 0.0, 0.0, 0.0)
  const NO_ACC := Acc(0.0, 0, 0.0)
  const ZERO := Totals(0, NO_MEASURES, 0, 0, NO_ACC, NO_ACC)

  function PlusMeasures(a: Measures, b: Measures): Measures {
    Measures(a.paired + b.paired, a.lgTime + b.lgTime, a.gmTime + b.gmTime, a.lgTok + b.lgTok,
             a.gmTok + b.gmTok, a.lgCalls + b.lgCalls, a.gmCalls + b.gmCalls)
  }

  function Square(x: real): real {
    x * x
  }

  /** What one run adds to the accumulated accuracy: nothing, if it has no scored sample. */
  function PlusStat(a: Acc, s: Stat): Acc {
    if s.acc.Some? && s.n != 0 then
      Acc(a.sum + s.acc.value * s.n as real, a.n + s.n,
          if s.n > 1 then a.varSum + (s.n - 1) as real * Square(s.std) else a.varSum)
    else a
  }

  function PlusRow(t: Totals, row: Row): Totals {
    Totals(t.count + 1, PlusMeasures(t.measures, row.measures),
           t.lgErrors + row.lgErrors, t.gmErrors + row.gmErrors,
           PlusStat(t.lg, row.lg), PlusStat(t.gm, row.gm))
  }

  function OverMeasures(m: Measures, n: real): Measures
    requires n > 0.0
  {
    Measures(m.paired / n, m.lgTime / n, m.gmTime / n, m.lgTok / n, m.gmTok / n, m.lgCalls / n, m.gmCalls / n)
  }

  function Accuracy(a: Acc): Option<real> {
    if a.n != 0 then Some(a.sum / a.n as real) else None
  }

  /** The square of the reported pooled deviation. */
  function PooledVariance(a: Acc, count: nat): real {
    if a.n > count then a.varSum / (a.n - count) as real else 0.0
  }

  datatype Report = Report(key: string, labels: Labels, means: Measures, lgAcc: Option<real>, gmAcc: Option<real>,
                           lgVar: real, gmVar: real, lgErrors: int, gmErrors: int)

  function ReportOf(b: Bucket): Report {
    var t := b.totals;
    Report(b.key, b.labels, OverMeasures(t.measures, if t.count > 1 then t.count as real else 1.0),
           Accuracy(t.lg), Accuracy(t.gm), PooledVariance(t.lg, t.count), PooledVariance(t.gm, t.count),
           t.lgErrors, t.gmErrors)
  }

  // ---------------------------------------------------------------- group by

  /** The rows with a given key, in order. */
  function GroupOf(rows: seq<Row>, key: string): seq<Row> {
    if rows == [] then []
    else GroupOf(rows[..|rows| - 1], key) + (if rows[|rows| - 1].key == key then [rows[|rows| - 1]] else [])
  }

  function TotalsOf(rows: seq<Row>): Totals {
    if rows == [] then ZERO else PlusRow(TotalsOf(rows[..|rows| - 1]), rows[|rows| - 1])
  }

  function Keys(rows: seq<Row>): set<string> {
    set i | 0 <= i < |rows| :: rows[i].key
  }

  /** The group-by specification: each group is reported from its own rows, under its first row's labels. */
  function GroupReport(group: seq<Row>): Report
    requires group != []
  {
    ReportOf(Bucket(group[0].key, group[0].labels, TotalsOf(group)))
  }

  lemma {:induction false} GroupNonEmpty(rows: seq<Row>, key: string)
    ensures GroupOf(rows, key) != [] <==> key in Keys(rows)
  {
    if rows != [] {
      var n := |rows| - 1;
      GroupNonEmpty(rows[..n], key);
      assert forall i | 0 <= i < n :: rows[..n][i] == rows[i];
      if key in Keys(rows) && rows[n].key != key {
        var i :| 0 <= i < |rows| && rows[i].key == key;
        assert rows[..n][i].key == key;
      }
    }
  }

  ghost predicate Buckets(grouped: map<string, Bucket>, rows: seq<Row>) {
    && (forall k :: k in grouped <==> GroupOf(rows, k) != [])
    && (forall k | k in grouped :: grouped[k] == Bucket(k, GroupOf(rows, k)[0].labels, TotalsOf(GroupOf(rows, k))))
  }

  lemma OneMoreRow(grouped: map<string, Bucket>, rows: seq<Row>, row: Row)
    requires Buckets(grouped, rows)
    ensures var b := if row.key in grouped then grouped[row.key] else Bucket(row.key, row.labels, ZERO);
      Buckets(grouped[row.key := b.(totals := PlusRow(b.totals, row))], rows + [row])
  {
    var b := if row.key in grouped then grouped[row.key] else Bucket(row.key, row.labels, ZERO);
    var grouped' := grouped[row.key := b.(totals := PlusRow(b.totals, row))];
    var all := rows + [row];
    assert all[..|rows|] == rows;
    forall k
      ensures k in grouped' <==> GroupOf(all, k) != []
      ensures k in grouped' ==> grouped'[k] == Bucket(k, GroupOf(all, k)[0].labels, TotalsOf(GroupOf(all, k)))
    {
      var group := GroupOf(rows, k);
      if k == row.key {
        assert GroupOf(all, k) == group + [row];
        assert (group + [row])[..|group|] == group;
      } else {
        assert GroupOf(all, k) == group + [] == group;
      }
    }
  }

  // ---------------------------------------------------------------- sorting by key

  /** The order of strings: by the first difference, else by length. */
  predicate Less(a: string, b: string) {
    b != [] && (a == [] || a[0] < b[0] || (a[0] == b[0] && Less(a[1..], b[1..])))
  }

  lemma {:induction false} LessTotal(a: string, b: string)
    ensures a != b ==> Less(a, b) || Less(b, a)
  {
    if a != [] && b != [] && a[0] == b[0] {
      LessTotal(a[1..], b[1..]);
      assert a == [a[0]] + a[1..] && b == [b[0]] + b[1..];
    }
  }

  lemma {:induction false} LessTrans(a: string, b: string, c: string)
    requires Less(a, b) && Less(b, c)
    ensures Less(a, c)
  {
    if a != [] && a[0] == b[0] == c[0] {
      LessTrans(a[1..], b[1..], c[1..]);
    }
  }

  predicate IsLeast(least: string, keys: set<string>) {
    least in keys && forall k | k in keys :: k == least || Less(least, k)
  }

  method Least(keys: set<string>) returns (least: string)
    requires keys != {}
    ensures IsLeast(least, keys)
  {
    least :| least in keys;
    var todo := keys - {least};
    while todo != {}
      invariant todo <= keys && IsLeast(least, keys - todo)
      decreases todo
    {
      var k :| k in todo;
      LessTotal(k, least);
      if Less(k, least) {
        forall other | other in keys - todo && other != least
          ensures Less(k, other)
        {
          LessTrans(k, least, other);
        }
        least := k;
      }
      todo := todo - {k};
    }
  }

  /** The reports of all buckets, sorted by key. */
  method SortedReports(grouped: map<string, Bucket>) returns (agg: seq<Report>)
    requires forall k | k in grouped :: grouped[k].key == k
    ensures forall i, j | 0 <= i < j < |agg| :: Less(agg[i].key, agg[j].key)
    ensures forall k | k in grouped :: exists i :: 0 <= i < |agg| && agg[i].key == k
    ensures forall i | 0 <= i < |agg| :: agg[i].key in grouped && agg[i] == ReportOf(grouped[agg[i].key])
  {
    agg := [];
    var todo := grouped.Keys;
    while todo != {}
      invariant todo <= grouped.Keys
      invariant forall i, j | 0 <= i < j < |agg| :: Less(agg[i].key, agg[j].key)
      invariant forall k | k in grouped && k !in todo :: exists i :: 0 <= i < |agg| && agg[i].key == k
      invariant forall i | 0 <= i < |agg| :: agg[i].key in grouped && agg[i] == ReportOf(grouped[agg[i].key])
      invariant forall i, k | 0 <= i < |agg| && k in todo :: Less(agg[i].key, k)
      decreases todo
    {
      var k := Least(todo);
      ghost var before := agg;
      agg := agg + [ReportOf(grouped[k])];
      todo := todo - {k};
      assert agg[|before|].key == k;
      assert forall i | 0 <= i < |before| :: agg[i] == before[i];
    }
  }

  /**
   * Row-by-row accumulation into buckets reports exactly the groups of the group-by specification,
   * each once, sorted by key.
   */
  method AggregateRows(rows: seq<Row>) returns (agg: seq<Report>)
    ensures forall i, j | 0 <= i < j < |agg| :: Less(agg[i].key, agg[j].key)
    ensures forall row | row in rows :: exists i :: 0 <= i < |agg| && agg[i].key == row.key
    ensures forall i | 0 <= i < |agg| ::
      GroupOf(rows, agg[i].key) != [] && agg[i] == GroupReport(GroupOf(rows, agg[i].key))
  {
    var grouped: map<string, Bucket> := map[];
    for i := 0 to |rows|
      invariant Buckets(grouped, rows[..i])
    {
      var row := rows[i];
      OneMoreRow(grouped, rows[..i], row);
      assert rows[..i] + [row] == rows[..i + 1];
      var b := if row.key in grouped then grouped[row.key] else Bucket(row.key, row.labels, ZERO);
      grouped := grouped[row.key := b.(totals := PlusRow(b.totals, row))];
    }
    assert rows[..|rows|] == rows;
    GroupKeys(rows);
    agg := SortedReports(grouped);
    forall row | row in rows
      ensures row.key in grouped
    {
      GroupNonEmpty(rows, row.key);
    }
  }

  lemma GroupKeys(rows: seq<Row>)
    ensures forall k | GroupOf(rows, k) != [] :: GroupOf(rows, k)[0].key == k
  {
    forall k | GroupOf(rows, k) != []
      ensures GroupOf(rows, k)[0].key == k
    {
      GroupMember(rows, k, GroupOf(rows, k)[0]);
    }
  }

  // ---------------------------------------------------------------- the order of the rows

  lemma PlusRowCommutes(t: Totals, a: Row, b: Row)
    ensures PlusRow(PlusRow(t, a), b) == PlusRow(PlusRow(t, b), a)
  {
  }

  function TotalsFrom(t: Totals, rows: seq<Row>): Totals
    decreases rows
  {
    if rows == [] then t else TotalsFrom(PlusRow(t, rows[0]), rows[1..])
  }

  lemma {:induction false} FromFront(t: Totals, rows: seq<Row>)
    ensures rows != [] ==> TotalsFrom(t, rows) == PlusRow(TotalsFrom(t, rows[..|rows| - 1]), rows[|rows| - 1])
    decreases rows
  {
    if |rows| > 1 {
      FromFront(PlusRow(t, rows[0]), rows[1..]);
      assert rows[1..][..|rows| - 2] == rows[..|rows| - 1][1..];
    }
  }

  lemma {:induction false} TotalsFromZero(rows: seq<Row>)
    ensures TotalsOf(rows) == TotalsFrom(ZERO, rows)
  {
    if rows != [] {
      FromFront(ZERO, rows);
      TotalsFromZero(rows[..|rows| - 1]);
    }
  }

  lemma {:induction false} MoveToFront(t: Totals, rows: seq<Row>, i: nat)
    requires i < |rows|
    ensures TotalsFrom(t, rows) == TotalsFrom(PlusRow(t, rows[i]), rows[..i] + rows[i + 1..])
    decreases rows
  {
    if i == 0 {
      assert rows[..0] + rows[1..] == rows[1..];
    } else {
      MoveToFront(PlusRow(t, rows[0]), rows[1..], i - 1);
      PlusRowCommutes(t, rows[0], rows[i]);
      var rest := rows[..i] + rows[i + 1..];
      assert rest[1..] == rows[1..][..i - 1] + rows[1..][i..];
    }
  }

  lemma {:induction false} TotalsAnyOrder(t: Totals, a: seq<Row>, b: seq<Row>)
    requires multiset(a) == multiset(b)
    ensures TotalsFrom(t, a) == TotalsFrom(t, b)
    decreases a
  {
    if a == [] {
      assert |b| == |multiset(b)| == |multiset(a)|;
    } else {
      assert a[0] in multiset(b);
      var i :| 0 <= i < |b| && b[i] == a[0];
      RemoveOne(a, b, i);
      MoveToFront(t, b, i);
      TotalsAnyOrder(PlusRow(t, a[0]), a[1..], b[..i] + b[i + 1..]);
    }
  }

  lemma RemoveOne<T>(a: seq<T>, b: seq<T>, i: nat)
    requires multiset(a) == multiset(b) && a != [] && i < |b| && b[i] == a[0]
    ensures multiset(a[1..]) == multiset(b[..i] + b[i + 1..])
  {
    var rest := b[..i] + b[i + 1..];
    assert a == [a[0]] + a[1..];
    assert b == b[..i] + [b[i]] + b[i + 1..];
    assert multiset(a) == multiset(a[1..]) + multiset{a[0]};
    assert multiset(b) == multiset(rest) + multiset{a[0]};
    assert multiset(a[1..]) == multiset(a) - multiset{a[0]};
    assert multiset(rest) == multiset(b) - multiset{a[0]};
  }

  lemma MultisetSnoc<T>(a: seq<T>, x: T, y: T)
    ensures multiset(a + [x])[y] == multiset(a)[y] + (if x == y then 1 else 0)
  {
  }

  lemma {:induction false} GroupMultiset(rows: seq<Row>, key: string, r: Row)
    ensures multiset(GroupOf(rows, key))[r] == if r.key == key then multiset(rows)[r] else 0
  {
    if rows != [] {
      var n := |rows| - 1;
      GroupMultiset(rows[..n], key, r);
      MultisetSnoc(rows[..n], rows[n], r);
      MultisetSnoc(GroupOf(rows[..n], key), rows[n], r);
      assert rows == rows[..n] + [rows[n]];
      assert GroupOf(rows[..n], key) + [] == GroupOf(rows[..n], key);
    }
  }

  lemma {:induction false} GroupMember(rows: seq<Row>, key: string, r: Row)
    requires r in GroupOf(rows, key)
    ensures r.key == key && r in rows
  {
    var n := |rows| - 1;
    if r in GroupOf(rows[..n], key) {
      GroupMember(rows[..n], key, r);
    }
  }

  /**
   * The order of the rows does not matter: every group is reported the same but for the labels,
   * which are those of its first row, so the reports are equal exactly when these are.
   */
  lemma AnyRowOrder(a: seq<Row>, b: seq<Row>, key: string)
    requires multiset(a) == multiset(b)
    ensures var (ga, gb) := (GroupOf(a, key), GroupOf(b, key));
      && (ga != [] <==> gb != [])
      && (ga != [] ==>
            && GroupReport(ga).(labels := gb[0].labels) == GroupReport(gb)
            && (GroupReport(ga) == GroupReport(gb) <==> ga[0].labels == gb[0].labels))
  {
    var ga, gb := GroupOf(a, key), GroupOf(b, key);
    forall r
      ensures multiset(ga)[r] == multiset(gb)[r]
    {
      GroupMultiset(a, key, r);
      GroupMultiset(b, key, r);
    }
    assert multiset(ga) == multiset(gb);
    assert |ga| == |multiset(ga)| == |multiset(gb)| == |gb|;
    TotalsFromZero(ga);
    TotalsFromZero(gb);
    TotalsAnyOrder(ZERO, ga, gb);
    GroupKeys(a);
    GroupKeys(b);
  }

  // ---------------------------------------------------------------- what the accuracy means

  function Sum(xs: seq<real>): real {
    if xs == [] then 0.0 else Sum(xs[..|xs| - 1]) + xs[|xs| - 1]
  }

  function Mean(xs: seq<real>): real {
    if xs == [] then 0.0 else Sum(xs) / |xs| as real
  }

  /** The sum of squared deviations from `mean`. */
  function SquaredDeviations(xs: seq<real>, mean: real): real {
    if xs == [] then 0.0
    else SquaredDeviations(xs[..|xs| - 1], mean) + Square(xs[|xs| - 1] - mean)
  }

  /** `std` is the sample standard deviation of the scores, which is 0 for fewer than two of them. */
  predicate IsSampleStd(std: real, xs: seq<real>) {
    if |xs| < 2 then std == 0.0
    else std >= 0.0 && Square(std) == SquaredDeviations(xs, Mean(xs)) / (|xs| - 1) as real
  }

  /** The accuracy part of a summary row. */
  function StatOf(scored: seq<real>, std: real): Stat {
    if scored == [] then Stat(None, 0, 0.0) else Stat(Some(Mean(scored)), |scored|, std)
  }

  function Flatten(runs: seq<seq<real>>): seq<real> {
    if runs == [] then [] else Flatten(runs[..|runs| - 1]) + runs[|runs| - 1]
  }

  /** Accumulates one framework's runs. */
  function AccOf(runs: seq<seq<real>>, stds: seq<real>): Acc
    requires |stds| == |runs|
  {
    if runs == [] then NO_ACC
    else
      var n := |runs| - 1;
      PlusStat(AccOf(runs[..n], stds[..n]), StatOf(runs[n], stds[n]))
  }

  /** The accumulated accuracy of rows is that of the runs they were built from. */
  lemma {:induction false} TotalsAreAccs(
    rows: seq<Row>, lg: seq<seq<real>>, lgStds: seq<real>, gm: seq<seq<real>>, gmStds: seq<real>)
    requires |lg| == |lgStds| == |gm| == |gmStds| == |rows|
    requires forall i | 0 <= i < |rows| ::
      rows[i].lg == StatOf(lg[i], lgStds[i]) && rows[i].gm == StatOf(gm[i], gmStds[i])
    ensures TotalsOf(rows).lg == AccOf(lg, lgStds) && TotalsOf(rows).gm == AccOf(gm, gmStds)
    ensures TotalsOf(rows).count == |rows|
  {
    if rows != [] {
      var n := |rows| - 1;
      TotalsAreAccs(rows[..n], lg[..n], lgStds[..n], gm[..n], gmStds[..n]);
    }
  }

  lemma {:induction false} SumAppend(a: seq<real>, b: seq<real>)
    ensures Sum(a + b) == Sum(a) + Sum(b)
  {
    if b == [] {
      assert a + b == a;
    } else {
      var n := |b| - 1;
      SumAppend(a, b[..n]);
      assert (a + b)[..|a + b| - 1] == a + b[..n];
    }
  }

  lemma MeanTimesCount(xs: seq<real>)
    requires xs != []
    ensures Mean(xs) * |xs| as real == Sum(xs)
  {
    DivTimes(Sum(xs), |xs| as real);
  }

  lemma DivTimes(x: real, n: real)
    requires n != 0.0
    ensures x / n * n == x
  {
  }

  lemma StdTimesFreedom(xs: seq<real>, std: real)
    requires IsSampleStd(std, xs) && |xs| > 1
    ensures (|xs| - 1) as real * Square(std) == SquaredDeviations(xs, Mean(xs))
  {
    DivTimes(SquaredDeviations(xs, Mean(xs)), (|xs| - 1) as real);
  }

  /** What a run's accuracy holds of its scores: their sum, number and squared deviations. */
  ghost predicate Holds(s: Stat, xs: seq<real>) {
    && s.acc.Some? && s.n == |xs|
    && s.acc.value * s.n as real == Sum(xs)
    && (s.n > 1 ==> (s.n - 1) as real * Square(s.std) == SquaredDeviations(xs, Mean(xs)))
    && (s.n == 1 ==> SquaredDeviations(xs, Mean(xs)) == 0.0)
  }

  lemma StatHolds(xs: seq<real>, std: real)
    requires IsSampleStd(std, xs) && xs != []
    ensures Holds(StatOf(xs, std), xs)
  {
    MeanTimesCount(xs);
    if |xs| == 1 {
      SingleDeviation(xs);
    } else {
      StdTimesFreedom(xs, std);
    }
  }

  lemma HeldIsAdded(a: Acc, s: Stat, xs: seq<real>)
    requires Holds(s, xs) && xs != []
    ensures PlusStat(a, s) == Acc(a.sum + Sum(xs), a.n + |xs|, a.varSum + SquaredDeviations(xs, Mean(xs)))
  {
  }

  /** One run adds its scores, their number and their squared deviations. */
  lemma OneRun(a: Acc, xs: seq<real>, std: real)
    requires IsSampleStd(std, xs)
    ensures PlusStat(a, StatOf(xs, std)) ==
      Acc(a.sum + Sum(xs), a.n + |xs|, a.varSum + SquaredDeviations(xs, Mean(xs)))
  {
    if xs != [] {
      StatHolds(xs, std);
      HeldIsAdded(a, StatOf(xs, std), xs);
    }
  }

  lemma {:induction false} SumsAddUp(runs: seq<seq<real>>, stds: seq<real>)
    requires |stds| == |runs| && forall i | 0 <= i < |runs| :: IsSampleStd(stds[i], runs[i])
    ensures AccOf(runs, stds).sum == Sum(Flatten(runs)) && AccOf(runs, stds).n == |Flatten(runs)|
  {
    if runs != [] {
      var n := |runs| - 1;
      SumsAddUp(runs[..n], stds[..n]);
      assert IsSampleStd(stds[n], runs[n]);
      OneRun(AccOf(runs[..n], stds[..n]), runs[n], stds[n]);
      SumAppend(Flatten(runs[..n]), runs[n]);
    }
  }

  /** The accumulated accuracy is the mean score over the union of the runs' scored samples. */
  lemma AccuracyIsOverallMean(runs: seq<seq<real>>, stds: seq<real>)
    requires |stds| == |runs| && forall i | 0 <= i < |runs| :: IsSampleStd(stds[i], runs[i])
    ensures Accuracy(AccOf(runs, stds)) == OverallAccuracy(runs)
  {
    SumsAddUp(runs, stds);
  }

  function OverallAccuracy(runs: seq<seq<real>>): Option<real> {
    if Flatten(runs) == [] then None else Some(Mean(Flatten(runs)))
  }

  /**
   * The accuracies in the report of a group are the mean scores over the union of the scored samples
   * of the runs its rows were built from.
   */
  lemma GroupAccuracy(
    group: seq<Row>, lg: seq<seq<real>>, lgStds: seq<real>, gm: seq<seq<real>>, gmStds: seq<real>)
    requires group != [] && |lg| == |lgStds| == |gm| == |gmStds| == |group|
    requires forall i | 0 <= i < |group| ::
      group[i].lg == StatOf(lg[i], lgStds[i]) && group[i].gm == StatOf(gm[i], gmStds[i])
    requires forall i | 0 <= i < |group| :: IsSampleStd(lgStds[i], lg[i]) && IsSampleStd(gmStds[i], gm[i])
    ensures GroupReport(group).lgAcc == OverallAccuracy(lg)
    ensures GroupReport(group).gmAcc == OverallAccuracy(gm)
  {
    TotalsAreAccs(group, lg, lgStds, gm, gmStds);
    AccuracyIsOverallMean(lg, lgStds);
    AccuracyIsOverallMean(gm, gmStds);
  }

  function TotalDeviations(runs: seq<seq<real>>): real {
    if runs == [] then 0.0
    else
      var n := |runs| - 1;
      TotalDeviations(runs[..n]) + SquaredDeviations(runs[n], Mean(runs[n]))
  }

  /** The degrees of freedom: one less than its scores for every run that has any. */
  function Freedom(runs: seq<seq<real>>): nat {
    if runs == [] then 0
    else
      var n := |runs| - 1;
      Freedom(runs[..n]) + (if runs[n] == [] then 0 else |runs[n]| - 1)
  }

  function Unscored(runs: seq<seq<real>>): nat {
    if runs == [] then 0
    else
      var n := |runs| - 1;
      Unscored(runs[..n]) + (if runs[n] == [] then 1 else 0)
  }

  lemma SingleDeviation(xs: seq<real>)
    requires |xs| == 1
    ensures SquaredDeviations(xs, Mean(xs)) == 0.0
  {
    assert Sum(xs) == Sum(xs[..0]) + xs[0] && xs[..0] == [];
    assert SquaredDeviations(xs[..0], Mean(xs)) == 0.0;
  }

  lemma {:induction false} VarSumIsDeviations(runs: seq<seq<real>>, stds: seq<real>)
    requires |stds| == |runs| && forall i | 0 <= i < |runs| :: IsSampleStd(stds[i], runs[i])
    ensures AccOf(runs, stds).varSum == TotalDeviations(runs)
    ensures AccOf(runs, stds).n == Freedom(runs) + |runs| - Unscored(runs)
  {
    if runs != [] {
      var n := |runs| - 1;
      VarSumIsDeviations(runs[..n], stds[..n]);
      OneRun(AccOf(runs[..n], stds[..n]), runs[n], stds[n]);
    }
  }

  lemma {:induction false} UnscoredMeans(runs: seq<seq<real>>)
    ensures Unscored(runs) == 0 <==> AllScored(runs)
  {
    if runs != [] {
      var n := |runs| - 1;
      UnscoredMeans(runs[..n]);
      assert forall i | 0 <= i < n :: runs[..n][i] == runs[i];
    }
  }

  /** Every run has a scored sample. */
  predicate AllScored(runs: seq<seq<real>>) {
    forall i | 0 <= i < |runs| :: runs[i] != []
  }

  /** The divisor of the reported value is the degrees of freedom exactly when every run has a scored sample. */
  lemma PooledDivisor(runs: seq<seq<real>>, stds: seq<real>)
    requires |stds| == |runs| && forall i | 0 <= i < |runs| :: IsSampleStd(stds[i], runs[i])
    ensures AccOf(runs, stds).n - |runs| == Freedom(runs) <==> AllScored(runs)
  {
    VarSumIsDeviations(runs, stds);
    UnscoredMeans(runs);
  }

  // ---------------------------------------------------------------- when the reported variance is the pooled one

  /** The pooled variance of the runs; 0 if there are no degrees of freedom. */
  function PooledOf(runs: seq<seq<real>>): real {
    if Freedom(runs) > 0 then TotalDeviations(runs) / Freedom(runs) as real else 0.0
  }

  predicate AllSame(xs: seq<real>) {
    forall i | 0 <= i < |xs| :: xs[i] == xs[0]
  }

  /** The scores of every run are all the same. */
  predicate NoSpread(runs: seq<seq<real>>) {
    forall i | 0 <= i < |runs| :: AllSame(runs[i])
  }

  lemma SquareOfPositive(x: real)
    requires x > 0.0
    ensures 0.0 < Square(x)
  {
    calc {
      0.0;
    < x * x;
    == Square(x);
    }
  }

  lemma SquareOfNegated(x: real)
    ensures Square(-x) == Square(x)
  {
  }

  lemma SquareOfOther(x: real)
    requires x != 0.0
    ensures 0.0 < Square(x)
  {
    SquareOfPositive(if x > 0.0 then x else -x);
    SquareOfNegated(x);
  }

  lemma SquareSign(x: real)
    ensures Square(x) >= 0.0 && (Square(x) == 0.0 <==> x == 0.0)
  {
    if x != 0.0 {
      SquareOfOther(x);
    }
  }

  lemma {:induction false} DeviationsSign(xs: seq<real>, mean: real)
    ensures SquaredDeviations(xs, mean) >= 0.0
    ensures SquaredDeviations(xs, mean) == 0.0 <==> forall i | 0 <= i < |xs| :: xs[i] == mean
  {
    if xs != [] {
      var n := |xs| - 1;
      DeviationsSign(xs[..n], mean);
      SquareSign(xs[n] - mean);
      assert forall i | 0 <= i < n :: xs[..n][i] == xs[i];
    }
  }

  lemma {:induction false} SumOfSame(xs: seq<real>, c: real)
    requires forall i | 0 <= i < |xs| :: xs[i] == c
    ensures Sum(xs) == |xs| as real * c
  {
    if xs != [] {
      SumOfSame(xs[..|xs| - 1], c);
    }
  }

  lemma MeanOfSame(xs: seq<real>)
    requires xs != [] && AllSame(xs)
    ensures Mean(xs) == xs[0]
  {
    SumOfSame(xs, xs[0]);
    Cancel(|xs| as real, xs[0]);
  }

  lemma Cancel(n: real, c: real)
    requires n > 0.0
    ensures n * c / n == c
  {
  }

  lemma RunSpread(xs: seq<real>)
    ensures SquaredDeviations(xs, Mean(xs)) >= 0.0
    ensures SquaredDeviations(xs, Mean(xs)) == 0.0 <==> AllSame(xs)
  {
    DeviationsSign(xs, Mean(xs));
    if xs != [] && AllSame(xs) {
      MeanOfSame(xs);
    }
  }

  lemma {:induction false} NoSpreadIff(runs: seq<seq<real>>)
    ensures TotalDeviations(runs) >= 0.0
    ensures TotalDeviations(runs) == 0.0 <==> NoSpread(runs)
  {
    if runs != [] {
      var n := |runs| - 1;
      NoSpreadIff(runs[..n]);
      RunSpread(runs[n]);
      assert forall i | 0 <= i < n :: runs[..n][i] == runs[i];
    }
  }

  lemma {:induction false} NoFreedomNoSpread(runs: seq<seq<real>>)
    requires Freedom(runs) == 0
    ensures NoSpread(runs)
  {
    if runs != [] {
      var n := |runs| - 1;
      NoFreedomNoSpread(runs[..n]);
      assert forall i | 0 <= i < n :: runs[..n][i] == runs[i];
    }
  }

  lemma QuotientsEqual(d: real, a: real, f: real)
    requires 0.0 < a <= f
    ensures d / a == d / f <==> a == f || d == 0.0
  {
    DivTimes(d, a);
    DivTimes(d, f);
    if d / a == d / f {
      assert d / a * (f - a) == 0.0;
    }
  }

  lemma ReportedIff(acc: Acc, count: nat, freedom: nat, unscored: nat)
    requires acc.n + unscored == freedom + count && acc.varSum >= 0.0 && freedom > 0
    ensures PooledVariance(acc, count) == acc.varSum / freedom as real <==> unscored == 0 || acc.varSum == 0.0
  {
    var d, f := acc.varSum, freedom as real;
    if acc.n > count {
      QuotientsEqual(d, (acc.n - count) as real, f);
    } else {
      DivTimes(d, f);
    }
  }

  /**
   * The value reported for the runs of a group is their pooled variance if and only if every run has
   * a scored sample or the scores of each run are all the same.
   */
  lemma PooledVarianceIff(runs: seq<seq<real>>, stds: seq<real>)
    requires |stds| == |runs| && forall i | 0 <= i < |runs| :: IsSampleStd(stds[i], runs[i])
    ensures PooledVariance(AccOf(runs, stds), |runs|) == PooledOf(runs) <==> AllScored(runs) || NoSpread(runs)
  {
    VarSumIsDeviations(runs, stds);
    UnscoredMeans(runs);
    NoSpreadIff(runs);
    if Freedom(runs) == 0 {
      NoFreedomNoSpread(runs);
    } else {
      ReportedIff(AccOf(runs, stds), |runs|, Freedom(runs), Unscored(runs));
    }
  }

  /** The same of the report of a group. */
  lemma GroupVariance(
    group: seq<Row>, lg: seq<seq<real>>, lgStds: seq<real>, gm: seq<seq<real>>, gmStds: seq<real>)
    requires group != [] && |lg| == |lgStds| == |gm| == |gmStds| == |group|
    requires forall i | 0 <= i < |group| ::
      group[i].lg == StatOf(lg[i], lgStds[i]) && group[i].gm == StatOf(gm[i], gmStds[i])
    requires forall i | 0 <= i < |group| :: IsSampleStd(lgStds[i], lg[i]) && IsSampleStd(gmStds[i], gm[i])
    ensures GroupReport(group).lgVar == PooledOf(lg) <==> AllScored(lg) || NoSpread(lg)
    ensures GroupReport(group).gmVar == PooledOf(gm) <==> AllScored(gm) || NoSpread(gm)
  {
    TotalsAreAccs(group, lg, lgStds, gm, gmStds);
    PooledVarianceIff(lg, lgStds);
    PooledVarianceIff(gm, gmStds);
  }

  /** A run without scores beside one with the scores 0 and 1: the report says 0 where 0.5 is right. */
  lemma WrongPooledVariance(std: real)
    requires IsSampleStd(std, [0.0, 1.0])
    ensures PooledVariance(AccOf([[0.0, 1.0], []], [std, 0.0]), 2) == 0.0
    ensures PooledOf([[0.0, 1.0], []]) == 0.5
  {
    var xs: seq<real> := [0.0, 1.0];
    var runs: seq<seq<real>> := [xs, []];
    RunsSnoc([], xs);
    RunsSnoc([xs], []);
    assert [] + [xs] == [xs] && [xs] + [[]] == runs;
    VarSumIsDeviations(runs, [std, 0.0]);
    HalfMean();
  }

  /** The report of a group of two such rows. */
  lemma WrongReport(group: seq<Row>, std: real)
    requires IsSampleStd(std, [0.0, 1.0]) && |group| == 2
    requires group[0].lg == group[0].gm == StatOf([0.0, 1.0], std)
    requires group[1].lg == group[1].gm == StatOf([], 0.0)
    ensures GroupReport(group).lgVar == GroupReport(group).gmVar == 0.0
  {
    var runs, stds: seq<real> := [[0.0, 1.0], []], [std, 0.0];
    TotalsAreAccs(group, runs, stds, runs, stds);
    WrongPooledVariance(std);
  }

  lemma RunsSnoc(runs: seq<seq<real>>, xs: seq<real>)
    ensures Freedom(runs + [xs]) == Freedom(runs) + (if xs == [] then 0 else |xs| - 1)
    ensures Unscored(runs + [xs]) == Unscored(runs) + (if xs == [] then 1 else 0)
    ensures TotalDeviations(runs + [xs]) == TotalDeviations(runs) + SquaredDeviations(xs, Mean(xs))
  {
    assert (runs + [xs])[..|runs|] == runs;
  }

  lemma DeviationsSnoc(xs: seq<real>, x: real, mean: real)
    ensures SquaredDeviations(xs + [x], mean) == SquaredDeviations(xs, mean) + Square(x - mean)
    ensures Sum(xs + [x]) == Sum(xs) + x
  {
    assert (xs + [x])[..|xs|] == xs;
  }

  lemma HalfMean()
    ensures Mean([0.0, 1.0]) == 0.5 && SquaredDeviations([0.0, 1.0], 0.5) == 0.5
  {
    Quarter();
    DeviationsSnoc([], 0.0, 0.5);
    DeviationsSnoc([0.0], 1.0, 0.5);
    assert [] + [0.0] == [0.0] && [0.0] + [1.0] == [0.0, 1.0];
  }

  lemma Quarter()
    ensures Square(0.5) == 0.25 && Square(-0.5) == 0.25
  {
    SquareOfNegated(0.5);
  }
}
