/**
 The default BM25 scorer (internal/scoring/bm25.go), with an unknown logarithm:
 its scores can be stored, so an index built with it can be searched with it.
 */
module Bm25 {
  import opened BuiltIndex
  import opened BuiltIndexFacts
  import opened QueryTerms

  const K1: real := 1.2
  const B: real := 0.75

  /** The two inequalities that are used of the natural logarithm. */
  ghost predicate IsLog(ln: real -> real) {
    forall y: real {:trigger ln(y)} :: y >= 1.0 ==> 1.0 - 1.0 / y <= ln(y) <= y - 1.0
  }

  function Odds(df: nat, n: nat): real {
    (n as real - df as real + 0.5) / (df as real + 0.5)
  }

  function Idf(ln: real -> real, df: nat, n: nat): real {
    ln(Odds(df, n) + 1.0)
  }

  function Denominator(tf: nat, dl: nat, avg: real): real
    requires avg > 0.0
  {
    tf as real + K1 * (1.0 - B + B * (dl as real) / avg)
  }

  /** Without an average length nothing is scored. */
  function TfNorm(tf: nat, dl: nat, avg: real): real {
    if avg <= 0.0 || Denominator(tf, dl, avg) == 0.0 then 0.0 else tf as real * (K1 + 1.0) / Denominator(tf, dl, avg)
  }

  function ScoreTerm(ln: real -> real, tf: nat, df: nat, dl: nat, avg: real, n: nat): real {
    Idf(ln, df, n) * TfNorm(tf, dl, avg)
  }

  function ScoreWithIDF(tf: nat, idf: real, dl: nat, avg: real): real {
    idf * TfNorm(tf, dl, avg)
  }

  function QueryScorer(ln: real -> real): Scorer {
    Scorer((df: nat, n: nat) => Idf(ln, df, n), ScoreWithIDF)
  }

  function Scoring(ln: real -> real, round32: real -> real): BuildScoring {
    BuildScoring((tf: nat, df: nat, dl: nat, avg: real, n: nat) => ScoreTerm(ln, tf, df, dl, avg, n), round32)
  }

  // ----- how large and how small a score is

  const U32: real := 4294967296.0

  lemma Cancel(x: real, y: real, b: real)
    requires b > 0.0 && x * b <= y * b
    ensures x <= y
  {
  }

  lemma DivideAbove(a: real, b: real, c: real)
    requires b > 0.0 && a >= c * b
    ensures a / b >= c
  {
    assert a / b * b == a;
    Cancel(c, a / b, b);
  }

  lemma DivideBelow(a: real, b: real, c: real)
    requires b > 0.0 && a <= c * b
    ensures a / b <= c
  {
    assert a / b * b == a;
    Cancel(a / b, c, b);
  }

  lemma Product(a: real, b: real, c: real, d: real)
    requires 0.0 <= a <= c && 0.0 <= b <= d
    ensures 0.0 <= a * b <= c * d
  {
    assert a * b <= c * b <= c * d;
  }

  lemma IdfBounds(ln: real -> real, df: nat, n: nat)
    requires IsLog(ln) && 1 <= df <= n < 0x1_0000_0000
    ensures 0.5 / U32 <= Idf(ln, df, n) <= U32
  {
    var y := Odds(df, n) + 1.0;
    var d, m := df as real + 0.5, n as real + 1.0;
    assert y * d == m;
    DivideBelow(n as real - df as real + 0.5, d, U32);
    DivideAbove(n as real - df as real + 0.5, d, 0.0);
    assert 1.0 / y <= 1.0 - 0.5 / U32 by {
      DivideBelow(d, m, 1.0 - 0.5 / U32);
      assert 1.0 / y == d / m;
    }
  }

  lemma TfNormBounds(tf: nat, dl: nat, avg: real, n: nat)
    requires 1 <= tf && avg > 0.0 && dl as real <= avg * (n as real) && n < 0x1_0000_0000
    ensures 1.0 / U32 <= TfNorm(tf, dl, avg) <= K1 + 1.0
  {
    var share := B * (dl as real) / avg;
    DivideAbove(B * (dl as real), avg, 0.0);
    DivideBelow(B * (dl as real), avg, B * (n as real));
    var c := K1 * (1.0 - B + share);
    var den := Denominator(tf, dl, avg);
    assert den == tf as real + c && 0.0 <= c <= U32 - 1.0;
    DivideBelow(tf as real * (K1 + 1.0), den, K1 + 1.0);
    assert den <= tf as real * U32;
    DivideAbove(tf as real * (K1 + 1.0), den, 1.0 / U32);
  }

  /** Every score of a build is a positive number that a 32-bit float holds well. */
  lemma ScoreStorable(ln: real -> real, tf: nat, df: nat, dl: nat, avg: real, n: nat)
    requires IsLog(ln) && Arises(tf, df, dl, avg, n)
    ensures ScoreTerm(ln, tf, df, dl, avg, n) > 0.0 && Storable(ScoreTerm(ln, tf, df, dl, avg, n))
  {
    hide IsLog, Idf, TfNorm;
    IdfBounds(ln, df, n);
    TfNormBounds(tf, dl, avg, n);
    var idf, norm := Idf(ln, df, n), TfNorm(tf, dl, avg);
    Product(0.5 / U32, 1.0 / U32, idf, norm);
    Product(idf, norm, U32, K1 + 1.0);
  }

  /** Searching with the scorer the index was built with. */
  lemma Bm25IsSame(ln: real -> real, round32: real -> real)
    requires IsLog(ln)
    ensures SameScorer(QueryScorer(ln), Scoring(ln, round32))
  {
    hide IsLog, Arises, Storable, Idf, TfNorm;
    var k := Scoring(ln, round32);
    forall tf: nat, df: nat, dl: nat, avg: real, n: nat {:trigger k.scoreTerm(tf, df, dl, avg, n)} | Arises(tf, df, dl, avg, n)
      ensures QueryScorer(ln).withIDF(tf, QueryScorer(ln).idf(df, n), dl, avg) == k.scoreTerm(tf, df, dl, avg, n)
      ensures Storable(k.scoreTerm(tf, df, dl, avg, n))
    {
      ScoreStorable(ln, tf, df, dl, avg, n);
    }
  }

  // ----- how length and frequency count

  lemma QuotientTimes(a: real, b: real)
    requires b != 0.0
    ensures a / b * b == a
  {
  }

  lemma DividedByMore(a: real, b: real, c: real)
    requires a > 0.0 && 0.0 < b < c
    ensures a / c < a / b
  {
    var u, v := a / b, a / c;
    QuotientTimes(a, b);
    QuotientTimes(a, c);
    assert v > 0.0;
    assert v * b < v * c;
    if v >= u { assert v * b >= u * b; }
  }

  lemma ShareGrows(dl: nat, dl': nat, avg: real)
    requires avg > 0.0 && dl < dl'
    ensures 0.0 <= B * (dl as real) / avg < B * (dl' as real) / avg
  {
    var x, y := B * (dl as real) / avg, B * (dl' as real) / avg;
    QuotientTimes(B * (dl as real), avg);
    QuotientTimes(B * (dl' as real), avg);
    DivideAbove(B * (dl as real), avg, 0.0);
    if y <= x { Product(y, avg, x, avg); }
  }

  /** A longer document scores less for the same frequency. */
  lemma LongerIsLess(tf: nat, dl: nat, dl': nat, avg: real)
    requires tf >= 1 && avg > 0.0 && dl < dl'
    ensures 0.0 < TfNorm(tf, dl', avg) < TfNorm(tf, dl, avg)
  {
    ShareGrows(dl, dl', avg);
    DividedByMore(tf as real * (K1 + 1.0), Denominator(tf, dl, avg), Denominator(tf, dl', avg));
    DividedByMore(tf as real * (K1 + 1.0), Denominator(tf, dl', avg), Denominator(tf, dl', avg) + 1.0);
    DivideAbove(tf as real * (K1 + 1.0), Denominator(tf, dl', avg) + 1.0, 0.0);
  }

  /** A term that occurs more often scores more in a document of the same length. */
  lemma OftenIsMore(tf: nat, tf': nat, dl: nat, avg: real)
    requires tf < tf' && avg > 0.0
    ensures TfNorm(tf, dl, avg) < TfNorm(tf', dl, avg)
  {
    ShareGrows(dl, dl + 1, avg);
    var c := K1 * (1.0 - B + B * (dl as real) / avg);
    var x, y := tf as real, tf' as real;
    var u, v := x * (K1 + 1.0) / (x + c), y * (K1 + 1.0) / (y + c);
    QuotientTimes(x * (K1 + 1.0), x + c);
    QuotientTimes(y * (K1 + 1.0), y + c);
    Saturates(x, y, c, K1 + 1.0, u, v);
  }

  /** u = x k / (x + c) grows with x. */
  lemma Saturates(x: real, y: real, c: real, k: real, u: real, v: real)
    requires 0.0 <= x < y && c > 0.0 && k > 0.0 && u * (x + c) == x * k && v * (y + c) == y * k
    ensures u < v
  {
    assert (k - u) * (x + c) == k * c && (k - v) * (y + c) == k * c;
    Product(0.0, 0.0, k, c);
    if u >= v {
      assert k * c > 0.0;
      Smaller(k - u, k - v, x + c, y + c, k * c);
    }
  }

  lemma Smaller(p: real, q: real, a: real, b: real, m: real)
    requires p * a == m && q * b == m && m > 0.0 && 0.0 < a < b
    ensures p > q
  {
    assert q > 0.0;
    assert q * a < q * b;
    assert p <= q ==> p * a <= q * a;
  }

  /** In a document of average length only the frequency counts; in general 0.9 dl / avg + 0.3 takes the place of 1.2. */
  lemma TfNormIs(tf: nat, dl: nat, avg: real)
    requires avg > 0.0
    ensures TfNorm(tf, dl, avg) * (tf as real * avg + 0.3 * avg + 0.9 * (dl as real)) == 2.2 * (tf as real) * avg
    ensures dl as real == avg ==> TfNorm(tf, dl, avg) == 2.2 * (tf as real) / (tf as real + 1.2)
  {
    ShareGrows(dl, dl + 1, avg);
    var share, den, x := B * (dl as real) / avg, Denominator(tf, dl, avg), TfNorm(tf, dl, avg);
    QuotientTimes(B * (dl as real), avg);
    QuotientTimes(tf as real * (K1 + 1.0), den);
    assert den * avg == tf as real * avg + 0.3 * avg + 0.9 * (dl as real);
    assert x * (den * avg) == (x * den) * avg;
    if dl as real == avg {
      Cancel(share, B, avg);
      Cancel(B, share, avg);
    }
  }

  /** The rarity of a term is the logarithm of (n + 1) / (df + 0.5). */
  lemma IdfIs(ln: real -> real, df: nat, n: nat)
    ensures Idf(ln, df, n) == ln((n as real + 1.0) / (df as real + 0.5))
  {
    var d := df as real + 0.5;
    QuotientTimes(n as real - df as real + 0.5, d);
    QuotientTimes(n as real + 1.0, d);
    var x, y := Odds(df, n) + 1.0, (n as real + 1.0) / d;
    assert x * d == y * d;
    Cancel(x, y, d);
    Cancel(y, x, d);
  }
}
