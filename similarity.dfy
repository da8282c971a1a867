/**
 * Item-item cosine similarity over the product columns of the interaction
 * matrix (`cosine_similarity(user_product_matrix.T)` indexed by the product
 * ids on both axes). Scores are kept as their exact integer ingredients, so
 * no square root or floating point is involved.
 */
module Similarity {
  import opened Catalog
  import opened Interactions

  /** The dot product of two count columns: positive exactly when some user bought both products. */
  function Dot(u: seq<nat>, v: seq<nat>): (r: nat)
    requires |u| == |v|
    ensures r > 0 <==> exists i :: 0 <= i < |u| && u[i] > 0 && v[i] > 0
  {
    if u == [] then 0
    else
      var rest := Dot(u[1..], v[1..]);
      assert forall i :: 0 <= i < |u[1..]| ==> u[1..][i] == u[i + 1] && v[1..][i] == v[i + 1];
      assert (exists i :: 0 <= i < |u| && u[i] > 0 && v[i] > 0) ==>
        (u[0] > 0 && v[0] > 0) || exists i :: 0 <= i < |u[1..]| && u[1..][i] > 0 && v[1..][i] > 0;
      u[0] * v[0] + rest
  }

  /** The squared Euclidean norm. */
  function NormSq(u: seq<nat>): nat
  {
    Dot(u, u)
  }

  lemma {:induction false} DotSymmetric(u: seq<nat>, v: seq<nat>)
    requires |u| == |v|
    ensures Dot(u, v) == Dot(v, u)
  {
    if u != [] {
      DotSymmetric(u[1..], v[1..]);
    }
  }

  /** Every component contributes its square to the norm. */
  lemma {:induction false} ComponentBelowNorm(u: seq<nat>, i: int)
    requires 0 <= i < |u|
    ensures u[i] * u[i] <= NormSq(u)
  {
    if i > 0 {
      ComponentBelowNorm(u[1..], i - 1);
    }
  }

  /** The cross term of one induction step of Cauchy-Schwarz. */
  lemma CrossTermBound(a: int, b: int, c: int, na: int, nb: int)
    requires na >= 0 && nb >= 0 && c * c <= na * nb
    ensures 2 * a * b * c <= a * a * nb + na * b * b
  {
    if na == 0 {
      assert c * c <= 0;
      assert c == 0;
    } else {
      var d := a * c - na * b;
      assert 0 <= d * d;
      assert d * d == a * a * (c * c) - 2 * na * (a * b * c) + na * (na * b * b);
      assert a * a * (c * c) <= a * a * (na * nb) by {
        assert a * a >= 0;
      }
      assert a * a * (na * nb) == na * (a * a * nb);
      var slack := a * a * nb + na * b * b - 2 * a * b * c;
      assert na * slack == na * (a * a * nb) + na * (na * b * b) - 2 * na * (a * b * c);
      assert na * slack >= 0;
      assert slack >= 0;
    }
  }

  /** One induction step of Cauchy-Schwarz, on plain numbers. */
  lemma CauchySchwarzStep(a: int, b: int, c: int, na: int, nb: int, d: int, nu: int, nv: int)
    requires na >= 0 && nb >= 0 && c * c <= na * nb
    requires d == a * b + c && nu == a * a + na && nv == b * b + nb
    ensures d * d <= nu * nv
  {
    CrossTermBound(a, b, c, na, nb);
    assert (a * b + c) * (a * b + c) == a * a * (b * b) + 2 * a * b * c + c * c;
    assert (a * a + na) * (b * b + nb) == a * a * (b * b) + a * a * nb + na * b * b + na * nb;
  }

  /** The Cauchy-Schwarz inequality for count vectors. */
  lemma {:induction false} CauchySchwarz(u: seq<nat>, v: seq<nat>)
    requires |u| == |v|
    ensures Dot(u, v) * Dot(u, v) <= NormSq(u) * NormSq(v)
  {
    if u != [] {
      var a, b := u[0], v[0];
      var c, na, nb := Dot(u[1..], v[1..]), NormSq(u[1..]), NormSq(v[1..]);
      CauchySchwarz(u[1..], v[1..]);
      CauchySchwarzStep(a, b, c, na, nb, Dot(u, v), NormSq(u), NormSq(v));
    }
  }

  /**
   * A cosine score as its exact ingredients: cos = dot / sqrt(normProduct),
   * where normProduct is the product of the two squared norms.
   */
  datatype Score = Score(dot: nat, normProduct: nat)

  /**
   * The exact square of the cosine. Counts are never negative, so the cosine
   * is never negative and ordering by this value is ordering by the cosine.
   * A zero norm gives 0, as scikit-learn does for an all-zero vector.
   */
  function SquaredCosine(s: Score): real
  {
    if s.normProduct == 0 then 0.0 else (s.dot * s.dot) as real / s.normProduct as real
  }

  /**
   * The cosine of two count columns. Its square never exceeds 1, and it is
   * 0 with no norm to divide by when either column is all zeros.
   */
  function Cosine(u: seq<nat>, v: seq<nat>): (s: Score)
    requires |u| == |v|
    ensures s.dot * s.dot <= s.normProduct
    ensures s.normProduct > 0 <==> NormSq(u) > 0 && NormSq(v) > 0
  {
    if NormSq(u) == 0 || NormSq(v) == 0 then Score(0, 0)
    else
      CauchySchwarz(u, v);
      Score(Dot(u, v), NormSq(u) * NormSq(v))
  }

  lemma CosineSymmetric(u: seq<nat>, v: seq<nat>)
    requires |u| == |v|
    ensures Cosine(u, v) == Cosine(v, u)
  {
    DotSymmetric(u, v);
  }

  /** Cosine scores of count vectors lie in [0, 1]. */
  lemma CosineInUnitRange(u: seq<nat>, v: seq<nat>)
    requires |u| == |v|
    ensures 0.0 <= SquaredCosine(Cosine(u, v)) <= 1.0
  {
    var s := Cosine(u, v);
    if s.normProduct != 0 {
      var x, y := (s.dot * s.dot) as real, s.normProduct as real;
      assert 0.0 <= x <= y && y > 0.0;
      assert x / y <= 1.0;
    }
  }

  /** A non-zero vector is at cosine 1 from itself. */
  lemma CosineSelf(u: seq<nat>)
    requires NormSq(u) > 0
    ensures SquaredCosine(Cosine(u, u)) == 1.0
  {
    var n := NormSq(u);
    var x := (n * n) as real;
    assert n * n > 0;
    assert x / x == 1.0;
  }

  /** A product x product similarity frame: labels shared by rows and columns. */
  datatype SimilarityMatrix = SimilarityMatrix(products: seq<int>, scores: seq<seq<Score>>)
  {
    predicate Square()
    {
      && |scores| == |products|
      && forall i :: 0 <= i < |scores| ==> |scores[i]| == |products|
    }
  }

  /** Column `j` of the interaction matrix: one product's counts over all users. */
  function Column(m: InteractionMatrix, j: int): (c: seq<nat>)
    requires m.WellFormed() && 0 <= j < |m.products|
    ensures |c| == |m.users|
    ensures forall i :: 0 <= i < |m.users| ==> c[i] == m.counts[i][j]
  {
    seq(|m.users|, i requires 0 <= i < |m.users| => m.counts[i][j])
  }

  /** Pairwise cosine similarity of the product columns, labelled by the product ids. */
  function CosineSimilarity(m: InteractionMatrix): (s: SimilarityMatrix)
    requires m.WellFormed()
    ensures s.Square()
    ensures s.products == m.products
  {
    var n := |m.products|;
    SimilarityMatrix(m.products,
      seq(n, i requires 0 <= i < n =>
        seq(n, j requires 0 <= j < n => Cosine(Column(m, i), Column(m, j)))))
  }

  lemma SimilaritySymmetric(m: InteractionMatrix)
    requires m.WellFormed()
    ensures var s := CosineSimilarity(m);
      forall i, j :: 0 <= i < |s.products| && 0 <= j < |s.products| ==> s.scores[i][j] == s.scores[j][i]
  {
    var s := CosineSimilarity(m);
    forall i, j | 0 <= i < |s.products| && 0 <= j < |s.products|
      ensures s.scores[i][j] == s.scores[j][i]
    {
      CosineSymmetric(Column(m, i), Column(m, j));
    }
  }

  lemma SimilarityInUnitRange(m: InteractionMatrix)
    requires m.WellFormed()
    ensures var s := CosineSimilarity(m);
      forall i, j :: 0 <= i < |s.products| && 0 <= j < |s.products| ==>
        0.0 <= SquaredCosine(s.scores[i][j]) <= 1.0
  {
    var s := CosineSimilarity(m);
    forall i, j | 0 <= i < |s.products| && 0 <= j < |s.products|
      ensures 0.0 <= SquaredCosine(s.scores[i][j]) <= 1.0
    {
      CosineInUnitRange(Column(m, i), Column(m, j));
    }
  }

  /** Every product column of a pivot table holds at least one purchase. */
  lemma PurchasedColumnNonZero(ps: seq<Purchase>, j: int)
    requires 0 <= j < |PivotCounts(ps).products|
    ensures NormSq(Column(PivotCounts(ps), j)) > 0
  {
    var m := PivotCounts(ps);
    var i := PurchasedCell(ps, j);
    var col := Column(m, j);
    assert col[i] == m.counts[i][j];
    ComponentBelowNorm(col, i);
  }

  /** Every purchased product is at the maximal score 1 from itself. */
  lemma SelfSimilarityIsOne(ps: seq<Purchase>)
    ensures var s := CosineSimilarity(PivotCounts(ps));
      forall j :: 0 <= j < |s.products| ==> SquaredCosine(s.scores[j][j]) == 1.0
  {
    var m := PivotCounts(ps);
    forall j | 0 <= j < |m.products|
      ensures SquaredCosine(CosineSimilarity(m).scores[j][j]) == 1.0
    {
      PurchasedColumnNonZero(ps, j);
      CosineSelf(Column(m, j));
    }
  }
}
