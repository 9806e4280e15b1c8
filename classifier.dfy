/** The poetry classifier `isPoetry` and its helper `calculateVariance`.
    JavaScript numbers are modelled as exact reals plus NaN and the two infinities. The only
    divisions by zero the classifier performs divide an empty sum or count by the empty line
    count, which JavaScript evaluates to NaN, and every comparison with NaN is false. */
module Classifier {
  import opened Chars
  import opened Strings
  import opened Replace

  datatype Num = NaN | PosInf | NegInf | Val(v: real)

  /** `a / b` for finite operands (the classifier divides nothing else): `0 / 0` is NaN and
      a non-zero number divided by zero is an infinity of its sign. */
  function Div(a: Num, b: Num): Num {
    if !a.Val? || !b.Val? then NaN
    else if b.v != 0.0 then Val(a.v / b.v)
    else if a.v == 0.0 then NaN
    else if a.v > 0.0 then PosInf
    else NegInf
  }

  predicate Less(a: Num, b: real) { a.NegInf? || (a.Val? && a.v < b) }
  predicate Greater(a: Num, b: real) { a.PosInf? || (a.Val? && a.v > b) }

  function Sum(xs: seq<int>): int {
    if xs == [] then 0 else xs[0] + Sum(xs[1..])
  }

  function SumSq(xs: seq<int>): int {
    if xs == [] then 0 else xs[0] * xs[0] + SumSq(xs[1..])
  }

  /** `numbers.map(num => Math.pow(num - mean, 2)).reduce(+)` */
  function SumSqDiff(xs: seq<int>, mean: real): real {
    if xs == [] then 0.0 else (xs[0] as real - mean) * (xs[0] as real - mean) + SumSqDiff(xs[1..], mean)
  }

  /** `calculateVariance`: the population variance, NaN for an empty list. */
  function Variance(xs: seq<int>): Num {
    var mean := Div(Val(Sum(xs) as real), Val(|xs| as real));
    if !mean.Val? then NaN else Div(Val(SumSqDiff(xs, mean.v)), Val(|xs| as real))
  }

  /** `text.split('\n').filter(line => line.trim().length > 0)` */
  function NonBlank(ls: seq<string>): (r: seq<string>)
    ensures |r| <= |ls|
    ensures forall k :: 0 <= k < |r| ==> Trim(r[k]) != [] && r[k] in ls
  {
    if ls == [] then []
    else if Trim(ls[0]) != [] then [ls[0]] + NonBlank(ls[1..])
    else NonBlank(ls[1..])
  }

  function NonBlankLines(text: string): seq<string> {
    NonBlank(Split(text, '\n'))
  }

  /** `lines.map(line => line.trim().length)` */
  function TrimmedLengths(ls: seq<string>): seq<int> {
    seq(|ls|, k requires 0 <= k < |ls| => |Trim(ls[k])|)
  }

  /** `text.split(/\s+/).length`: one more than the number of maximal whitespace runs. */
  function WordCount(text: string): nat {
    1 + MatchCount(RunOf(IsWs, 1, []), text)
  }

  /** `line.match(/^\s{2,}/) || line.startsWith('\t')` */
  predicate Indented(line: string) {
    RunLen(line, 0, IsWs) >= 2 || (|line| > 0 && line[0] == '\t')
  }

  /** `/^[А-ЯЁA-Z]/.test(line.trim())` */
  predicate Capitalized(line: string) {
    var t := Trim(line);
    t != [] && (IsCyrUpper(t[0]) || IsLatinUpper(t[0]))
  }

  function CountWhere(ls: seq<string>, p: string -> bool): (r: nat)
    ensures r <= |ls|
  {
    if ls == [] then 0 else (if p(ls[0]) then 1 else 0) + CountWhere(ls[1..], p)
  }

  /** Heuristic 1: the mean trimmed length of the non-blank lines is below 60. */
  predicate ShortLines(text: string) {
    var lines := NonBlankLines(text);
    Less(Div(Val(Sum(TrimmedLengths(lines)) as real), Val(|lines| as real)), 60.0)
  }

  /** Heuristic 2: more than one '\n' per ten words. */
  predicate ManyBreaks(text: string) {
    Greater(Div(Val(CountChar(text, '\n') as real), Val(WordCount(text) as real)), 0.1)
  }

  /** Heuristic 3: more than 30% of the non-blank lines are indented. */
  predicate ManyIndented(text: string) {
    var lines := NonBlankLines(text);
    Greater(Div(Val(CountWhere(lines, Indented) as real), Val(|lines| as real)), 0.3)
  }

  /** Heuristic 4: more than 70% of the non-blank lines start with a capital letter. */
  predicate ManyCapitalized(text: string) {
    var lines := NonBlankLines(text);
    Greater(Div(Val(CountWhere(lines, Capitalized) as real), Val(|lines| as real)), 0.7)
  }

  /** Heuristic 5: the variance of the trimmed line lengths is below 100. */
  predicate RegularLengths(text: string) {
    Less(Variance(TrimmedLengths(NonBlankLines(text))), 100.0)
  }

  /** The weighted score of `isPoetry`, evaluated as the source writes it. */
  function PoetryScore(text: string): int {
    (if ShortLines(text) then 2 else 0)
    + (if ManyBreaks(text) then 2 else 0)
    + (if ManyIndented(text) then 3 else 0)
    + (if ManyCapitalized(text) then 1 else 0)
    + (if RegularLengths(text) then 1 else 0)
  }

  predicate IsPoetry(text: string) {
    PoetryScore(text) >= 4
  }

  /** The same score in integer arithmetic, each ratio test cross-multiplied by its positive
      denominator; with no non-blank line every per-line test is false (NaN). */
  function IntegerScore(text: string): int {
    var lines := NonBlankLines(text);
    var n := |lines|;
    var lens := TrimmedLengths(lines);
    var s := Sum(lens);
    (if n > 0 && s < 60 * n then 2 else 0)
    + (if 10 * CountChar(text, '\n') > WordCount(text) then 2 else 0)
    + (if n > 0 && 10 * CountWhere(lines, Indented) > 3 * n then 3 else 0)
    + (if n > 0 && 10 * CountWhere(lines, Capitalized) > 7 * n then 1 else 0)
    + (if n > 0 && n * SumSq(lens) - s * s < 100 * n * n then 1 else 0)
  }

  /** The sum of squared deviations expands to Σx² − 2mΣx + n·m². */
  lemma {:induction false} SumSqDiffExpand(xs: seq<int>, m: real)
    ensures SumSqDiff(xs, m) == SumSq(xs) as real - 2.0 * m * Sum(xs) as real + |xs| as real * m * m
  {
    if xs != [] {
      SumSqDiffExpand(xs[1..], m);
      CastMul(xs[0], xs[0]);
      ExpandStep(xs[0] as real, m, SumSq(xs[1..]) as real, Sum(xs[1..]) as real, |xs[1..]| as real,
        SumSqDiff(xs[1..], m));
    }
  }

  lemma ExpandStep(x: real, m: real, q: real, s: real, n: real, rest: real)
    requires rest == q - 2.0 * m * s + n * m * m
    ensures (x - m) * (x - m) + rest == (x * x + q) - 2.0 * m * (x + s) + (n + 1.0) * m * m
  {
  }

  /** With mean m = s/n, (q − 2ms + n·m²)/n, scaled by n², is n·q − s². */
  lemma VarianceAlgebra(n: real, s: real, q: real, m: real)
    requires n > 0.0 && m == s / n
    ensures (q - 2.0 * m * s + n * m * m) / n * (n * n) == n * q - s * s
  {
    assert n * m == s;
    var d := q - 2.0 * m * s + n * m * m;
    assert d / n * n == d;
    calc {
      d / n * (n * n);
      == (d / n * n) * n;
      == d * n;
      == q * n - 2.0 * (m * n) * s + (n * m) * (n * m);
      == q * n - 2.0 * s * s + s * s;
    }
  }

  lemma CastMul(a: int, b: int)
    ensures (a * b) as real == a as real * b as real
  {
  }

  /** The variance test on reals: with mean s/n, (q − 2ms + n·m²)/n < b iff n·q − s² < b·n². */
  lemma RealVarianceBelow(v: Num, n: real, s: real, q: real, d: real, b: real)
    requires n > 0.0 && d == q - 2.0 * (s / n) * s + n * (s / n) * (s / n) && v == Val(d / n)
    ensures Less(v, b) <==> n * q - s * s < b * (n * n)
  {
    var m := s / n;
    var v := d / n;
    VarianceAlgebra(n, s, q, m);
    RealScale(v, b, n);
    RealScale(v * n, b * n, n);
    assert v * n * n == v * (n * n) && b * n * n == b * (n * n);
  }

  /** Casting the integer test to reals. */
  lemma CastVarianceTest(n: int, s: int, q: int, b: int)
    ensures (n * q - s * s < b * n * n) <==>
      n as real * q as real - s as real * s as real < b as real * (n as real * n as real)
  {
    CastMul(n, q);
    CastMul(s, s);
    CastMul(n, n);
    CastMul(b, n * n);
    assert b * n * n == b * (n * n);
  }

  /** For a non-empty list the variance is Σ(x − m)² / n with m = Σx / n. */
  lemma VarianceValue(xs: seq<int>)
    requires xs != []
    ensures Variance(xs) == Val(SumSqDiff(xs, Sum(xs) as real / |xs| as real) / |xs| as real)
  {
  }

  /** The variance test of a list with n elements, sum s and sum of squares q. */
  lemma VarianceTest(v: Num, n: int, s: int, q: int, d: real, b: int)
    requires n > 0
    requires var m := s as real / n as real; d == q as real - 2.0 * m * s as real + n as real * m * m
    requires v == Val(d / n as real)
    ensures Less(v, b as real) <==> n * q - s * s < b * n * n
  {
    RealVarianceBelow(v, n as real, s as real, q as real, d, b as real);
    CastVarianceTest(n, s, q, b);
  }

  /** A variance below `b` is, for a non-empty list, the integer test n·Σx² − (Σx)² < b·n². */
  lemma VarianceBelow(xs: seq<int>, b: int)
    requires xs != []
    ensures Less(Variance(xs), b as real) <==> |xs| * SumSq(xs) - Sum(xs) * Sum(xs) < b * |xs| * |xs|
  {
    var m := Sum(xs) as real / |xs| as real;
    VarianceValue(xs);
    SumSqDiffExpand(xs, m);
    VarianceTest(Variance(xs), |xs|, Sum(xs), SumSq(xs), SumSqDiff(xs, m), b);
  }

  lemma RealScale(v: real, b: real, k: real)
    requires k > 0.0
    ensures v < b <==> v * k < b * k
  {
  }

  /** A ratio test of the source, `a / n > c / 10`, is the integer test 10·a > c·n; a
      positive count over zero is +Infinity, which passes every such test. */
  lemma RatioAbove(a: nat, n: nat, c: int)
    ensures Greater(Div(Val(a as real), Val(n as real)), c as real / 10.0) <==>
      (n > 0 && 10 * a > c * n) || (n == 0 && a > 0)
  {
    if n > 0 {
      var r := a as real / n as real;
      assert r * n as real == a as real;
      RealScale(c as real / 10.0, r, 10.0 * n as real);
      CastMul(c, n);
    }
  }

  /** A mean test of the source, `s / n < b`, is the integer test s < b·n; a negative sum
      over zero is -Infinity, which passes every such test. */
  lemma MeanBelow(s: int, n: nat, b: int)
    ensures Less(Div(Val(s as real), Val(n as real)), b as real) <==>
      (n > 0 && s < b * n) || (n == 0 && s < 0)
  {
    if n > 0 {
      var avg := s as real / n as real;
      assert avg * n as real == s as real;
      RealScale(avg, b as real, n as real);
      CastMul(b, n);
    }
  }

  lemma RegularLengthsIff(text: string)
    ensures RegularLengths(text) <==>
      var lens := TrimmedLengths(NonBlankLines(text));
      |lens| > 0 && |lens| * SumSq(lens) - Sum(lens) * Sum(lens) < 100 * |lens| * |lens|
  {
    var lens := TrimmedLengths(NonBlankLines(text));
    if lens != [] {
      VarianceBelow(lens, 100);
    }
  }

  /** The classifier evaluates each heuristic exactly as its integer form. */
  lemma ScoreIsInteger(text: string)
    ensures PoetryScore(text) == IntegerScore(text)
  {
    var lines := NonBlankLines(text);
    MeanBelow(Sum(TrimmedLengths(lines)), |lines|, 60);
    RegularLengthsIff(text);
    assert 0.1 == 1 as real / 10.0;
    RatioAbove(CountChar(text, '\n'), WordCount(text), 1);
    assert 0.3 == 3 as real / 10.0;
    RatioAbove(CountWhere(lines, Indented), |lines|, 3);
    assert 0.7 == 7 as real / 10.0;
    RatioAbove(CountWhere(lines, Capitalized), |lines|, 7);
  }

  /** `isPoetry` holds iff the weighted score reaches 4: 2 for a mean trimmed line length
      below 60, 2 for more than one line break per ten words, 3 for more than 30% indented
      lines, 1 for more than 70% capitalised lines, 1 for a length variance below 100. */
  lemma IsPoetryIff(text: string)
    ensures IsPoetry(text) <==> IntegerScore(text) >= 4
  {
    ScoreIsInteger(text);
  }

  /** Without a non-blank line only the line-break ratio can score, and 2 is below the cutoff. */
  lemma BlankIsNotPoetry(text: string)
    requires NonBlankLines(text) == []
    ensures !IsPoetry(text)
  {
    ScoreIsInteger(text);
  }

  /** One short capitalised line is enough: 2 (mean) + 1 (capitals) + 1 (variance 0). */
  lemma OneShortCapitalLineIsPoetry(text: string)
    requires |NonBlankLines(text)| == 1
    requires |Trim(NonBlankLines(text)[0])| < 60 && Capitalized(NonBlankLines(text)[0])
    ensures IsPoetry(text)
  {
    ScoreIsInteger(text);
    var lines := NonBlankLines(text);
    var lens := TrimmedLengths(lines);
    assert lines[1..] == [];
    assert lens == [|Trim(lines[0])|];
    assert Sum(lens) == lens[0];
    assert SumSq(lens) == lens[0] * lens[0];
    assert CountWhere(lines, Capitalized) == 1;
  }
}
