/**
 * Finding the recorded agent run that best matches an invocation: the newest exact match, else the
 * most similar one. Vectors and scores are real; the square root is given by its defining property.
 */
module SnapshotMatcher {
  import opened Wrappers

  type Vector = seq<real>

  ghost predicate IsSqrt(sqrt: real -> real) {
    forall x | x >= 0.0 :: sqrt(x) >= 0.0 && sqrt(x) * sqrt(x) == x
  }

  /** `sum(a * b for a, b in zip(left, right))` */
  function Dot(left: Vector, right: Vector): real
    requires |left| == |right|
  {
    if left == [] then 0.0
    else Dot(left[..|left| - 1], right[..|right| - 1]) + left[|left| - 1] * right[|right| - 1]
  }

  function CosineSimilarity(sqrt: real -> real, left: Vector, right: Vector): real {
    if left == [] || right == [] || |left| != |right| then 0.0
    else
      var leftNorm, rightNorm := sqrt(Dot(left, left)), sqrt(Dot(right, right));
      if leftNorm == 0.0 || rightNorm == 0.0 then 0.0
      else
        Dot(left, right) / (leftNorm * rightNorm)
  }

  // ---------- Cauchy-Schwarz ----------

  lemma {:induction false} SquareNotNegative(v: Vector)
    ensures Dot(v, v) >= 0.0
  {
    if v != [] {
      SquareNotNegative(v[..|v| - 1]);
    }
  }

  /** The square of `left - t * right`, expanded. */
  function Quadratic(ll: real, lr: real, rr: real, t: real): real {
    ll - 2.0 * t * lr + t * t * rr
  }

  lemma QuadraticAdds(ll: real, lr: real, rr: real, a: real, b: real, t: real, ll': real, lr': real, rr': real)
    requires ll' == ll + a * a && lr' == lr + a * b && rr' == rr + b * b
    ensures Quadratic(ll', lr', rr', t) >= Quadratic(ll, lr, rr, t)
  {
    var c := a - t * b;
    assert t * t * rr' == t * t * rr + (t * b) * (t * b);
    assert 2.0 * t * lr' == 2.0 * t * lr + 2.0 * (a * (t * b));
    assert c * c == a * a - 2.0 * (a * (t * b)) + (t * b) * (t * b);
    assert c * c >= 0.0;
  }

  lemma {:induction false} ResidualSquareNotNegative(left: Vector, right: Vector, t: real)
    requires |left| == |right|
    ensures Quadratic(Dot(left, left), Dot(left, right), Dot(right, right), t) >= 0.0
  {
    if left != [] {
      var l, r, a, b := left[..|left| - 1], right[..|right| - 1], left[|left| - 1], right[|right| - 1];
      ResidualSquareNotNegative(l, r, t);
      QuadraticAdds(Dot(l, l), Dot(l, r), Dot(r, r), a, b, t, Dot(left, left), Dot(left, right), Dot(right, right));
    }
  }

  lemma SquareIsZero(b: real)
    requires b * b <= 0.0
    ensures b == 0.0
  {
    ProductSign(b, b);
  }

  lemma ProductSign(x: real, y: real)
    requires x * y <= 0.0
    ensures !(x > 0.0 && y > 0.0) && !(x < 0.0 && y < 0.0)
  {
  }

  lemma ProductPositive(x: real, y: real)
    requires x > 0.0 && y > 0.0
    ensures x * y > 0.0
  {
  }

  lemma {:induction false} ZeroSquareMeansZeroDot(left: Vector, right: Vector)
    requires |left| == |right| && Dot(right, right) == 0.0
    ensures Dot(left, right) == 0.0
  {
    if left != [] {
      var r, b := right[..|right| - 1], right[|right| - 1];
      SquareNotNegative(r);
      SquareIsZero(b);
      ZeroSquareMeansZeroDot(left[..|left| - 1], r);
    }
  }

  /** For vectors of any length. */
  lemma CauchySchwarz(left: Vector, right: Vector)
    requires |left| == |right|
    ensures Dot(left, right) * Dot(left, right) <= Dot(left, left) * Dot(right, right)
  {
    SquareNotNegative(right);
    if Dot(right, right) == 0.0 {
      ZeroSquareMeansZeroDot(left, right);
    } else {
      var t := Dot(left, right) / Dot(right, right);
      ResidualSquareNotNegative(left, right, t);
      FromQuadratic(Dot(left, left), Dot(left, right), Dot(right, right));
    }
  }

  lemma FromQuadratic(ll: real, lr: real, rr: real)
    requires rr > 0.0 && Quadratic(ll, lr, rr, lr / rr) >= 0.0
    ensures lr * lr <= ll * rr
  {
    var t := lr / rr;
    assert t * rr == lr;
    assert t * t * rr == t * lr;
    var rest := ll - t * lr;
    assert rest >= 0.0;
    ProductNotNegative(rest, rr);
    assert rest * rr == ll * rr - lr * (t * rr);
  }

  lemma ProductNotNegative(x: real, y: real)
    requires x >= 0.0 && y >= 0.0
    ensures x * y >= 0.0
  {
  }

  lemma {:induction false} DotCommutes(left: Vector, right: Vector)
    requires |left| == |right|
    ensures Dot(left, right) == Dot(right, left)
  {
    if left != [] {
      DotCommutes(left[..|left| - 1], right[..|right| - 1]);
    }
  }

  lemma SimilarityIsSymmetric(sqrt: real -> real, left: Vector, right: Vector)
    ensures CosineSimilarity(sqrt, left, right) == CosineSimilarity(sqrt, right, left)
  {
    if |left| == |right| {
      DotCommutes(left, right);
      var a, b := sqrt(Dot(left, left)), sqrt(Dot(right, right));
      assert a * b == b * a;
    }
  }

  /** The similarity of any two vectors lies between -1 and 1. */
  lemma SimilarityIsBounded(sqrt: real -> real, left: Vector, right: Vector)
    requires IsSqrt(sqrt)
    ensures -1.0 <= CosineSimilarity(sqrt, left, right) <= 1.0
  {
    if |left| == |right| {
      SquareNotNegative(left);
      SquareNotNegative(right);
      CauchySchwarz(left, right);
      var a, b := sqrt(Dot(left, left)), sqrt(Dot(right, right));
      assert a >= 0.0 && a * a == Dot(left, left);
      assert b >= 0.0 && b * b == Dot(right, right);
      if a != 0.0 && b != 0.0 {
        QuotientBound(Dot(left, right), a, b, Dot(left, left), Dot(right, right));
        assert left != [] ==> CosineSimilarity(sqrt, left, right) == Dot(left, right) / (a * b);
      }
    }
  }

  lemma QuotientBound(dot: real, a: real, b: real, aa: real, bb: real)
    requires a > 0.0 && b > 0.0 && a * a == aa && b * b == bb && dot * dot <= aa * bb
    ensures a * b > 0.0 && -1.0 <= dot / (a * b) <= 1.0
  {
    var p := a * b;
    ProductPositive(a, b);
    assert aa * bb == p * p by {
      assert (a * a) * (b * b) == a * (a * b) * b == p * p;
    }
    AbsBound(dot, p);
    var q := dot / p;
    assert q * p == dot;
    assert (q - 1.0) * p == dot - p;
    assert (-1.0 - q) * p == -p - dot;
    if q > 1.0 {
      ProductPositive(q - 1.0, p);
    } else if q < -1.0 {
      ProductPositive(-1.0 - q, p);
    }
  }

  lemma AbsBound(x: real, p: real)
    requires p > 0.0 && x * x <= p * p
    ensures -p <= x <= p
  {
    assert (x - p) * (x + p) == x * x - p * p;
    assert (-p - x) * (p - x) == x * x - p * p;
    if x > p {
      ProductPositive(x - p, x + p);
    } else if x < -p {
      ProductPositive(-p - x, p - x);
    }
  }

  /** A vector that is not zero is as similar to itself as can be. */
  lemma SimilarityToItself(sqrt: real -> real, v: Vector)
    requires IsSqrt(sqrt)
    ensures CosineSimilarity(sqrt, v, v) == if Dot(v, v) == 0.0 then 0.0 else 1.0
  {
    SquareNotNegative(v);
    var d := Dot(v, v);
    assert sqrt(d) * sqrt(d) == d;
    SquareIsZeroIff(sqrt(d));
    if d != 0.0 {
      OverItself(d);
    }
  }

  function Negated(v: Vector): Vector {
    seq(|v|, i requires 0 <= i < |v| => -v[i])
  }

  lemma {:induction false} DotNegated(left: Vector, right: Vector)
    requires |left| == |right|
    ensures Dot(left, Negated(right)) == -Dot(left, right)
  {
    if left != [] {
      var n := |left| - 1;
      DotNegated(left[..n], right[..n]);
      assert Negated(right)[..n] == Negated(right[..n]);
      assert left[n] * -right[n] == -(left[n] * right[n]);
    }
  }

  /** A vector that is not zero is as far from its opposite as can be. */
  lemma SimilarityToOpposite(sqrt: real -> real, v: Vector)
    requires IsSqrt(sqrt)
    ensures CosineSimilarity(sqrt, v, Negated(v)) == if Dot(v, v) == 0.0 then 0.0 else -1.0
  {
    NegatedDots(v);
    SquareNotNegative(v);
    OverRoots(sqrt, v, Negated(v), Dot(v, v), -Dot(v, v));
  }

  lemma NegatedDots(v: Vector)
    ensures Dot(v, Negated(v)) == -Dot(v, v) && Dot(Negated(v), Negated(v)) == Dot(v, v)
  {
    DotNegated(v, v);
    DotCommutes(v, Negated(v));
    DotNegated(Negated(v), v);
  }

  /** The similarity of two vectors of the same length. */
  lemma OverRoots(sqrt: real -> real, left: Vector, right: Vector, d: real, dot: real)
    requires IsSqrt(sqrt) && |left| == |right| && d >= 0.0
    requires Dot(left, left) == d == Dot(right, right) && Dot(left, right) == dot && (dot == d || dot == -d)
    ensures CosineSimilarity(sqrt, left, right) == if d == 0.0 then 0.0 else if dot == d then 1.0 else -1.0
  {
    var r := sqrt(d);
    assert r * r == d;
    SquareIsZeroIff(r);
    if d != 0.0 {
      assert left != [] by { assert Dot([], []) == 0.0; }
      SimilarityOverRoot(sqrt, left, right, r, d);
      OverItself(d);
      MinusOverItself(d);
    }
  }

  lemma SimilarityOverRoot(sqrt: real -> real, left: Vector, right: Vector, r: real, d: real)
    requires left != [] && |left| == |right| && r != 0.0 && r * r == d && d != 0.0
    requires sqrt(Dot(left, left)) == r == sqrt(Dot(right, right))
    ensures CosineSimilarity(sqrt, left, right) == Dot(left, right) / d
  {
    hide Dot;
  }

  lemma MinusOverItself(d: real)
    requires d != 0.0
    ensures -d / d == -1.0
  {
  }

  /** Similarity written out for two vectors of length 5. */
  lemma SimilarityWrittenOut(sqrt: real -> real)
    requires IsSqrt(sqrt)
    ensures CosineSimilarity(sqrt, [3.0, 4.0], [4.0, 3.0]) == 0.96
  {
    var a, b := [3.0, 4.0], [4.0, 3.0];
    assert a[..1] == [3.0] && b[..1] == [4.0] && [3.0][..0] == [] && [4.0][..0] == [];
    assert Dot([3.0], [4.0]) == 12.0 && Dot([3.0], [3.0]) == 9.0 && Dot([4.0], [4.0]) == 16.0;
    assert Dot(a, b) == 24.0 && Dot(a, a) == 25.0 && Dot(b, b) == 25.0;
    RootOf25(sqrt(25.0));
  }

  lemma RootOf25(x: real)
    requires x >= 0.0 && x * x == 25.0
    ensures x == 5.0
  {
    var y := x - 5.0;
    assert y * (x + 5.0) == 0.0;
    ProductIsZero(y, x + 5.0);
  }

  lemma ProductIsZero(x: real, y: real)
    requires x * y == 0.0 && y > 0.0
    ensures x == 0.0
  {
    var m := -x;
    assert m * y == -(x * y);
    ProductSign(x, y);
    ProductSign(m, y);
  }

  /** Vectors of different lengths, or none, are not compared. */
  lemma NoSimilarity(sqrt: real -> real, left: Vector, right: Vector)
    requires |left| != |right| || left == []
    ensures CosineSimilarity(sqrt, left, right) == 0.0
  {
  }

  lemma OverItself(d: real)
    requires d != 0.0
    ensures d / d == 1.0
  {
  }

  lemma SquareIsZeroIff(x: real)
    ensures x * x == 0.0 <==> x == 0.0
  {
    if x * x == 0.0 {
      SquareIsZero(x);
    }
  }

  // ---------- The matcher ----------

  /** A recorded run: the fingerprint of its input and the text it is searched by. */
  datatype Snapshot = Snapshot(id: string, fingerprint: string, queryText: string)

  datatype MatchMode = Exact | SemanticMode

  datatype Match = Match(snapshot: Snapshot, score: real, mode: MatchMode)

  /**
   * The embedding service: `None` when it fails or is the fake one. Nothing is assumed about the
   * number or length of its vectors.
   */
  type Embedder = seq<string> -> Option<seq<Vector>>

  function QueryTexts(snapshots: seq<Snapshot>): seq<string> {
    seq(|snapshots|, i requires 0 <= i < |snapshots| => snapshots[i].queryText)
  }

  /** One score per candidate, or none at all if they cannot be computed. */
  method SemanticSimilarityScores(sqrt: real -> real, embed: Embedder, query: string, texts: seq<string>)
    returns (scores: seq<real>)
    ensures scores == Scores(sqrt, embed, query, texts)
  {
    if query == "" || texts == [] {
      return [];
    }
    hide CosineSimilarity;
    var vectors := embed([query] + texts);
    if vectors.None? || |vectors.value| != |texts| + 1 {
      return [];
    }
    var queryVector := vectors.value[0];
    scores := [];
    for n := 0 to |texts|
      invariant |scores| == n
      invariant forall i | 0 <= i < n :: scores[i] == CosineSimilarity(sqrt, queryVector, vectors.value[i + 1])
    {
      scores := scores + [CosineSimilarity(sqrt, queryVector, vectors.value[n + 1])];
    }
  }

  function Scores(sqrt: real -> real, embed: Embedder, query: string, texts: seq<string>): seq<real> {
    if query == "" || texts == [] then []
    else
      var vectors := embed([query] + texts);
      if vectors.None? || |vectors.value| != |texts| + 1 then []
      else seq(|texts|, i requires 0 <= i < |texts| => CosineSimilarity(sqrt, vectors.value[0], vectors.value[i + 1]))
  }

  /** The score of each candidate, by position, when the embeddings can be computed and are one for each text. */
  lemma ScoresWrittenOut(sqrt: real -> real, embed: Embedder, query: string, texts: seq<string>)
    ensures var scores, vectors := Scores(sqrt, embed, query, texts), embed([query] + texts);
      if query != "" && texts != [] && vectors.Some? && |vectors.value| == |texts| + 1
      then |scores| == |texts| && forall i | 0 <= i < |texts| :: scores[i] == CosineSimilarity(sqrt, vectors.value[0], vectors.value[i + 1])
      else scores == []
  {
  }

  lemma ScoresAreBounded(sqrt: real -> real, embed: Embedder, query: string, texts: seq<string>)
    requires IsSqrt(sqrt)
    ensures var scores := Scores(sqrt, embed, query, texts);
      (scores == [] || |scores| == |texts|) && forall i | 0 <= i < |scores| :: -1.0 <= scores[i] <= 1.0
  {
    var scores := Scores(sqrt, embed, query, texts);
    forall i | 0 <= i < |scores| ensures -1.0 <= scores[i] <= 1.0 {
      var vectors := embed([query] + texts).value;
      SimilarityIsBounded(sqrt, vectors[0], vectors[i + 1]);
    }
  }

  /** The candidates that have a text to be searched by. */
  function Searchable(candidates: seq<Snapshot>): seq<Snapshot> {
    if candidates == [] then []
    else if candidates[0].queryText != "" then [candidates[0]] + Searchable(candidates[1..])
    else Searchable(candidates[1..])
  }

  /** `i` is the first exact match, and so the newest. */
  /** Searched are the candidates with a query text, each in its place. */
  lemma SearchableWrittenOut(s: Snapshot)
    ensures Searchable([s]) == if s.queryText != "" then [s] else []
  {
    assert [s][..0] == [] && [s][1..] == [];
  }

  lemma {:induction false} SearchableInOrder(a: seq<Snapshot>, b: seq<Snapshot>)
    ensures Searchable(a + b) == Searchable(a) + Searchable(b)
  {
    if a == [] {
      assert a + b == b;
    } else {
      assert (a + b)[1..] == a[1..] + b;
      SearchableInOrder(a[1..], b);
    }
  }

  ghost predicate IsNewestExact(candidates: seq<Snapshot>, fingerprint: string, i: nat) {
    && i < |candidates| && candidates[i].fingerprint == fingerprint
    && forall j | 0 <= j < i :: candidates[j].fingerprint != fingerprint
  }

  /** `i` has the highest score of all that reach the minimum, and is the first with that score. */
  ghost predicate IsBest(scores: seq<real>, minScore: real, i: nat) {
    && i < |scores| && scores[i] >= minScore
    && (forall j | 0 <= j < |scores| :: scores[j] <= scores[i])
    && forall j | 0 <= j < i :: scores[j] < scores[i]
  }

  ghost predicate IsExactResult(m: Option<Match>, candidates: seq<Snapshot>, fingerprint: string) {
    m.Some? && exists i: nat :: IsNewestExact(candidates, fingerprint, i) && m.value == Match(candidates[i], 1.0, Exact)
  }

  ghost predicate IsSemanticResult(m: Option<Match>, searched: seq<Snapshot>, scores: seq<real>, minScore: real)
    requires |scores| <= |searched|
  {
    if m.None? then forall i | 0 <= i < |scores| :: scores[i] < minScore
    else exists i: nat :: IsBest(scores, minScore, i) && m.value == Match(searched[i], scores[i], SemanticMode)
  }

  method NewestExactMatch(candidates: seq<Snapshot>, fingerprint: string) returns (m: Option<Match>)
    ensures m.Some? <==> exists s | s in candidates :: s.fingerprint == fingerprint
    ensures m.Some? ==> IsExactResult(m, candidates, fingerprint) && m.value.score == 1.0
  {
    for n := 0 to |candidates|
      invariant forall j | 0 <= j < n :: candidates[j].fingerprint != fingerprint
    {
      if candidates[n].fingerprint == fingerprint {
        assert IsNewestExact(candidates, fingerprint, n);
        return Some(Match(candidates[n], 1.0, Exact));
      }
    }
    return None;
  }

  method BestScored(searched: seq<Snapshot>, scores: seq<real>, minScore: real) returns (m: Option<Match>)
    requires |scores| <= |searched|
    ensures IsSemanticResult(m, searched, scores, minScore)
  {
    m := None;
    ghost var best: nat := 0;
    for n := 0 to |scores|
      invariant m.None? ==> forall j | 0 <= j < n :: scores[j] < minScore
      invariant m.Some? ==> IsBest(scores[..n], minScore, best) && m.value == Match(searched[best], scores[best], SemanticMode)
    {
      if scores[n] < minScore {
        continue;
      }
      if m.None? || scores[n] > m.value.score {
        best := n;
        m := Some(Match(searched[n], scores[n], SemanticMode));
      }
    }
    assert scores[..|scores|] == scores;
  }

  /**
   * `candidates` are ordered newest first. The newest exact match is preferred to any semantic one,
   * and outscores it; a semantic match is the best candidate that reaches the minimum score; there is
   * no match only if no candidate qualifies.
   */
  method FindBestMatch(sqrt: real -> real, embed: Embedder, candidates: seq<Snapshot>,
                       fingerprint: string, queryText: string, exactOnly: bool, minScore: real)
    returns (m: Option<Match>)
    requires IsSqrt(sqrt)
    ensures (exists s | s in candidates :: s.fingerprint == fingerprint) ==> IsExactResult(m, candidates, fingerprint)
    ensures (forall s | s in candidates :: s.fingerprint != fingerprint) ==>
      var searched := Searchable(candidates);
      var scores := Scores(sqrt, embed, queryText, QueryTexts(searched));
      if exactOnly then m.None? else |scores| <= |searched| && IsSemanticResult(m, searched, scores, minScore)
    ensures m.Some? ==> m.value.score <= 1.0
  {
    m := NewestExactMatch(candidates, fingerprint);
    if m.Some? || exactOnly || queryText == "" {
      return;
    }
    var searched := Searchable(candidates);
    var scores := SemanticSimilarityScores(sqrt, embed, queryText, QueryTexts(searched));
    ScoresAreBounded(sqrt, embed, queryText, QueryTexts(searched));
    m := BestScored(searched, scores, minScore);
  }
}
