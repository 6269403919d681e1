/** Gower distances between verdicts, and the matrices the clusterings work on. */
module Gower {
  import opened Distances

  datatype Features = Features(component: string, fixture: string, verdict: string, hasBaseline: bool,
                               exitCode: real, duration: real, tokens: real, words: real)

  datatype Ranges = Ranges(exitCode: real, duration: real, tokens: real, words: real)

  const DIMENSIONS := 8.0

  function Cat(a: string, b: string): real { if a == b then 0.0 else 1.0 }

  function Num(a: real, b: real, range: real): real {
    if range == 0.0 then 0.0
    else
      var d := a - b;
      (if d < 0.0 then -d else d) / range
  }

  function Distance(a: Features, b: Features, r: Ranges): real {
    (Cat(a.component, b.component) + Cat(a.fixture, b.fixture) + Cat(a.verdict, b.verdict)
     + (if a.hasBaseline != b.hasBaseline then 1.0 else 0.0)
     + Num(a.exitCode, b.exitCode, r.exitCode) + Num(a.duration, b.duration, r.duration)
     + Num(a.tokens, b.tokens, r.tokens) + Num(a.words, b.words, r.words)) / DIMENSIONS
  }

  /** `range` is how far apart the values of a population are at most. */
  ghost predicate Spreads(values: seq<real>, range: real) {
    && range >= 0.0
    && forall i, j :: 0 <= i < |values| && 0 <= j < |values| ==> values[i] - values[j] <= range
  }

  /** Two of the values are that far apart. */
  ghost predicate Attained(values: seq<real>, range: real) {
    exists i, j :: 0 <= i < |values| && 0 <= j < |values| && range == values[i] - values[j]
  }

  /** The ranges are no larger than they have to be: none at all without a population. */
  ghost predicate Tight(fs: seq<Features>, r: Ranges) {
    if fs == [] then r == Ranges(0.0, 0.0, 0.0, 0.0)
    else
      && Attained(seq(|fs|, i requires 0 <= i < |fs| => fs[i].exitCode), r.exitCode)
      && Attained(seq(|fs|, i requires 0 <= i < |fs| => fs[i].duration), r.duration)
      && Attained(seq(|fs|, i requires 0 <= i < |fs| => fs[i].tokens), r.tokens)
      && Attained(seq(|fs|, i requires 0 <= i < |fs| => fs[i].words), r.words)
  }

  ghost predicate Covers(fs: seq<Features>, r: Ranges) {
    && Spreads(seq(|fs|, i requires 0 <= i < |fs| => fs[i].exitCode), r.exitCode)
    && Spreads(seq(|fs|, i requires 0 <= i < |fs| => fs[i].duration), r.duration)
    && Spreads(seq(|fs|, i requires 0 <= i < |fs| => fs[i].tokens), r.tokens)
    && Spreads(seq(|fs|, i requires 0 <= i < |fs| => fs[i].words), r.words)
  }

  method Spread(values: seq<real>) returns (range: real)
    requires values != []
    ensures Spreads(values, range)
    ensures Attained(values, range)
  {
    var min, max := values[0], values[0];
    ghost var lo, hi := 0, 0;
    for k := 1 to |values|
      invariant 0 <= lo < k && 0 <= hi < k && min == values[lo] && max == values[hi]
      invariant forall i :: 0 <= i < k ==> min <= values[i] <= max
    {
      if values[k] < min {
        min, lo := values[k], k;
      }
      if values[k] > max {
        max, hi := values[k], k;
      }
    }
    range := max - min;
    assert range == values[hi] - values[lo];
  }

  method ComputeRanges(fs: seq<Features>) returns (r: Ranges)
    ensures Covers(fs, r) && Tight(fs, r)
  {
    hide Spreads, Attained;
    NoSpread();
    if |fs| == 0 {
      return Ranges(0.0, 0.0, 0.0, 0.0);
    }
    var x := Spread(seq(|fs|, i requires 0 <= i < |fs| => fs[i].exitCode));
    var d := Spread(seq(|fs|, i requires 0 <= i < |fs| => fs[i].duration));
    var t := Spread(seq(|fs|, i requires 0 <= i < |fs| => fs[i].tokens));
    var u := Spread(seq(|fs|, i requires 0 <= i < |fs| => fs[i].words));
    r := Ranges(x, d, t, u);
  }

  lemma NoSpread()
    ensures Spreads([], 0.0)
  {
  }

  /** One numeric variable: between 0 and 1 on the population, 0 only between equals,
      the same both ways, and no shorter by way of a third. */
  lemma NumIs(values: seq<real>, range: real, i: nat, j: nat, k: nat)
    requires Spreads(values, range) && i < |values| && j < |values| && k < |values|
    ensures 0.0 <= Num(values[i], values[j], range) <= 1.0
    ensures Num(values[i], values[j], range) == 0.0 <==> values[i] == values[j]
    ensures Num(values[i], values[j], range) == Num(values[j], values[i], range)
    ensures Num(values[i], values[k], range) <= Num(values[i], values[j], range) + Num(values[j], values[k], range)
  {
    assert values[i] - values[j] <= range && values[j] - values[i] <= range;
    if range > 0.0 {
      var a, b, c := Gap(values[i], values[j]), Gap(values[j], values[k]), Gap(values[i], values[k]);
      Quotients(a, b, c, range);
    }
  }

  function Gap(a: real, b: real): real { if a - b < 0.0 then -(a - b) else a - b }

  lemma Quotients(a: real, b: real, c: real, range: real)
    requires range > 0.0 && a >= 0.0
    ensures a <= range ==> a / range <= 1.0
    ensures a / range >= 0.0 && (a / range == 0.0 <==> a == 0.0)
    ensures c <= a + b ==> c / range <= a / range + b / range
  {
    assert (a + b) / range == a / range + b / range;
  }

  /** On its own population the distance is a metric bounded by 1. */
  lemma DistanceIsMetric(fs: seq<Features>, r: Ranges, i: nat, j: nat, k: nat)
    requires Covers(fs, r) && i < |fs| && j < |fs| && k < |fs|
    ensures 0.0 <= Distance(fs[i], fs[j], r) <= 1.0
    ensures Distance(fs[i], fs[j], r) == 0.0 <==> fs[i] == fs[j]
    ensures Distance(fs[i], fs[j], r) == Distance(fs[j], fs[i], r)
    ensures Distance(fs[i], fs[k], r) <= Distance(fs[i], fs[j], r) + Distance(fs[j], fs[k], r)
  {
    hide Num, Spreads;
    NumIs(seq(|fs|, x requires 0 <= x < |fs| => fs[x].exitCode), r.exitCode, i, j, k);
    NumIs(seq(|fs|, x requires 0 <= x < |fs| => fs[x].duration), r.duration, i, j, k);
    NumIs(seq(|fs|, x requires 0 <= x < |fs| => fs[x].tokens), r.tokens, i, j, k);
    NumIs(seq(|fs|, x requires 0 <= x < |fs| => fs[x].words), r.words, i, j, k);
  }

  /** Each variable counts on its own, and all count alike. */
  lemma EveryVariableCounts(a: Features, b: Features, r: Ranges)
    ensures Distance(a, b, r) ==
      Distance(a, a.(component := b.component), r) + Distance(a, a.(fixture := b.fixture), r)
      + Distance(a, a.(verdict := b.verdict), r) + Distance(a, a.(hasBaseline := b.hasBaseline), r)
      + Distance(a, a.(exitCode := b.exitCode), r) + Distance(a, a.(duration := b.duration), r)
      + Distance(a, a.(tokens := b.tokens), r) + Distance(a, a.(words := b.words), r)
  {
    SameNumbers(a, r);
  }

  lemma SameNumbers(a: Features, r: Ranges)
    ensures Num(a.exitCode, a.exitCode, r.exitCode) == Num(a.duration, a.duration, r.duration) == 0.0
    ensures Num(a.tokens, a.tokens, r.tokens) == Num(a.words, a.words, r.words) == 0.0
  {
  }

  /** An eighth for a variable that names something else. */
  lemma NameApart(a: Features, b: Features, r: Ranges)
    ensures Distance(a, a.(component := b.component), r) == if a.component == b.component then 0.0 else 0.125
    ensures Distance(a, a.(fixture := b.fixture), r) == if a.fixture == b.fixture then 0.0 else 0.125
    ensures Distance(a, a.(verdict := b.verdict), r) == if a.verdict == b.verdict then 0.0 else 0.125
    ensures Distance(a, a.(hasBaseline := b.hasBaseline), r) == if a.hasBaseline == b.hasBaseline then 0.0 else 0.125
  {
    SameNumbers(a, r);
  }

  /** `d` eighths of the range make up the gap; without a range there is no distance. */
  ghost predicate Eighths(d: real, x: real, y: real, range: real) {
    if range == 0.0 then d == 0.0 else d * (8.0 * range) == if x >= y then x - y else y - x
  }

  /** An eighth of its share of the range for a variable that measures something else. */
  lemma MeasureApart(a: Features, b: Features, r: Ranges)
    ensures Eighths(Distance(a, a.(exitCode := b.exitCode), r), a.exitCode, b.exitCode, r.exitCode)
    ensures Eighths(Distance(a, a.(duration := b.duration), r), a.duration, b.duration, r.duration)
    ensures Eighths(Distance(a, a.(tokens := b.tokens), r), a.tokens, b.tokens, r.tokens)
    ensures Eighths(Distance(a, a.(words := b.words), r), a.words, b.words, r.words)
  {
    SameNumbers(a, r);
    Share(a.exitCode, b.exitCode, r.exitCode);
    Share(a.duration, b.duration, r.duration);
    Share(a.tokens, b.tokens, r.tokens);
    Share(a.words, b.words, r.words);
    hide Num;
    assert Distance(a, a.(exitCode := b.exitCode), r) == Num(a.exitCode, b.exitCode, r.exitCode) / 8.0;
    assert Distance(a, a.(duration := b.duration), r) == Num(a.duration, b.duration, r.duration) / 8.0;
    assert Distance(a, a.(tokens := b.tokens), r) == Num(a.tokens, b.tokens, r.tokens) / 8.0;
    assert Distance(a, a.(words := b.words), r) == Num(a.words, b.words, r.words) / 8.0;
  }

  lemma Share(x: real, y: real, range: real)
    ensures Eighths(Num(x, y, range) / 8.0, x, y, range)
  {
    if range != 0.0 {
      var gap := if x >= y then x - y else y - x;
      assert Num(x, y, range) == gap / range;
      assert gap / range / 8.0 * (8.0 * range) == gap / range * range;
    }
  }

  ghost predicate IsMatrixOf(fs: seq<Features>, m: Matrix) {
    && |m| == |fs| && Square(m) && Symmetric(m)
    && (forall i, j :: 0 <= i < |m| && 0 <= j < |m| ==> 0.0 <= m[i][j] <= 1.0)
    && (forall i, j :: 0 <= i < |m| && 0 <= j < |m| ==> (m[i][j] == 0.0 <==> fs[i] == fs[j]))
    && forall i, j, k :: 0 <= i < |m| && 0 <= j < |m| && 0 <= k < |m| ==> m[i][k] <= m[i][j] + m[j][k]
  }

  /** Pair (a, b) has been filled in when `a` comes before (i, j) in the scan. */
  predicate Filled(a: int, b: int, i: int, j: int) {
    var lo, hi := if a < b then a else b, if a < b then b else a;
    lo == hi || lo < i || (lo == i && hi < j)
  }

  ghost predicate PartMatrix(fs: seq<Features>, r: Ranges, m: Matrix, i: int, j: int) {
    && |m| == |fs| && Square(m)
    && forall a, b :: 0 <= a < |m| && 0 <= b < |m| ==>
         m[a][b] == if a != b && Filled(a, b, i, j) then Between(fs, r, a, b) else 0.0
  }

  function Between(fs: seq<Features>, r: Ranges, a: int, b: int): real
    requires 0 <= a < |fs| && 0 <= b < |fs|
  {
    if a < b then Distance(fs[a], fs[b], r) else Distance(fs[b], fs[a], r)
  }

  /** Every entry is the distance between its two on the population's own ranges. */
  ghost predicate DistancesOf(fs: seq<Features>, r: Ranges, m: Matrix)
    requires |m| == |fs| && Square(m)
  {
    && Covers(fs, r) && Tight(fs, r)
    && forall i, j :: 0 <= i < |fs| && 0 <= j < |fs| ==> m[i][j] == Distance(fs[i], fs[j], r)
  }

  /** The ranges of a population are determined by it. */
  lemma RangesOnce(fs: seq<Features>, r: Ranges, r': Ranges)
    requires Covers(fs, r) && Tight(fs, r) && Covers(fs, r') && Tight(fs, r')
    ensures r == r'
  {
  }

  method DistanceMatrix(fs: seq<Features>) returns (m: Matrix)
    ensures IsMatrixOf(fs, m)
    ensures exists r :: DistancesOf(fs, r, m)
  {
    hide Distance, Covers, Tight;
    var r := ComputeRanges(fs);
    var n := |fs|;
    m := seq(n, _ => seq(n, _ => 0.0));
    for i := 0 to n
      invariant PartMatrix(fs, r, m, i, i + 1)
    {
      for j := i + 1 to n
        invariant PartMatrix(fs, r, m, i, j)
      {
        var d := Distance(fs[i], fs[j], r);
        m := SetPair(m, i, j, d);
      }
    }
    WholeMatrix(fs, r, m);
  }

  /** `d` in both places. */
  method SetPair(m: Matrix, i: nat, j: nat, d: real) returns (r: Matrix)
    requires Square(m) && i < j < |m|
    ensures |r| == |m| && Square(r)
    ensures forall a, b :: 0 <= a < |m| && 0 <= b < |m| ==>
      r[a][b] == if (a == i && b == j) || (a == j && b == i) then d else m[a][b]
  {
    r := m[i := m[i][j := d]];
    r := r[j := r[j][i := d]];
  }

  lemma WholeMatrix(fs: seq<Features>, r: Ranges, m: Matrix)
    requires Covers(fs, r) && Tight(fs, r) && PartMatrix(fs, r, m, |fs|, |fs| + 1)
    ensures IsMatrixOf(fs, m) && DistancesOf(fs, r, m)
  {
    hide Distance, Covers, Tight;
    var n := |fs|;
    forall a, b | 0 <= a < n && 0 <= b < n
      ensures m[a][b] == Distance(fs[a], fs[b], r) && 0.0 <= m[a][b] <= 1.0
      ensures m[a][b] == 0.0 <==> fs[a] == fs[b]
      ensures m[b][a] == m[a][b]
    {
      DistanceIsMetric(fs, r, a, b, b);
    }
    forall i, j, k | 0 <= i < n && 0 <= j < n && 0 <= k < n ensures m[i][k] <= m[i][j] + m[j][k] {
      DistanceIsMetric(fs, r, i, j, k);
    }
  }
}
