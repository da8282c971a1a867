/**
 * The recommender object: the two loaded tables as its state, the matrix
 * construction, the catalog lookup, and `get_recommendations`, which ranks one
 * similarity column and joins each selected candidate with its catalog row.
 */
module Recommender {
  import opened Wrappers
  import opened Catalog
  import opened Interactions
  import opened Similarity
  import opened Ranking

  /** One returned entry: candidate id and score, with the catalog's name, category and price. */
  datatype Recommendation = Recommendation(id: int, name: string, category: string, price: real, score: Score)

  /**
   * Catalog lookup over a table that may not have been loaded: reading a
   * missing table raises inside the lookup's try block and gives None too.
   */
  function Lookup(catalog: Option<seq<Product>>, id: int): (r: Option<Product>)
    ensures catalog.None? ==> r.None?
    ensures r.Some? ==> r.value.id == id && r.value in catalog.value
    ensures catalog.Some? && r.None? ==> forall p :: p in catalog.value ==> p.id != id
  {
    match catalog
    case None => None
    case Some(rows) => FirstMatch(rows, id)
  }

  function Entry(c: Candidate, p: Product): Recommendation
  {
    Recommendation(c.id, p.name, p.category, p.price, c.score)
  }

  /**
   * The result loop: each selected candidate, in order, joined with its
   * catalog row; a candidate without a row is skipped.
   */
  function JoinCatalog(catalog: Option<seq<Product>>, sel: seq<Candidate>): (r: seq<Recommendation>)
    ensures |r| <= |sel|
  {
    if sel == [] then []
    else
      var rest := JoinCatalog(catalog, sel[..|sel| - 1]);
      var c := sel[|sel| - 1];
      match Lookup(catalog, c.id)
      case None => rest
      case Some(p) => rest + [Entry(c, p)]
  }

  lemma JoinCatalogSnoc(catalog: Option<seq<Product>>, sel: seq<Candidate>, c: Candidate)
    ensures JoinCatalog(catalog, sel + [c]) ==
      match Lookup(catalog, c.id)
      case None => JoinCatalog(catalog, sel)
      case Some(p) => JoinCatalog(catalog, sel) + [Entry(c, p)]
  {
    assert (sel + [c])[..|sel|] == sel;
  }

  /**
   * Every returned entry is a selected candidate joined with its catalog
   * row, every selected candidate with a row is returned, and nothing is
   * lost when every candidate has a row.
   */
  lemma {:induction false} JoinCatalogEntries(catalog: Option<seq<Product>>, sel: seq<Candidate>)
    ensures var r := JoinCatalog(catalog, sel);
      && (forall e :: e in r ==>
            exists c :: c in sel && Lookup(catalog, c.id).Some? && e == Entry(c, Lookup(catalog, c.id).value))
      && (forall c :: c in sel && Lookup(catalog, c.id).Some? ==> Entry(c, Lookup(catalog, c.id).value) in r)
      && ((forall c :: c in sel ==> Lookup(catalog, c.id).Some?) ==> |r| == |sel|)
  {
    if sel != [] {
      var init, c := sel[..|sel| - 1], sel[|sel| - 1];
      assert sel == init + [c];
      JoinCatalogEntries(catalog, init);
      JoinCatalogSnoc(catalog, init, c);
    }
  }

  /** Non-increasing similarity scores. */
  predicate ScoresDesc(r: seq<Recommendation>)
  {
    forall i, j :: 0 <= i < j < |r| ==> SquaredCosine(r[j].score) <= SquaredCosine(r[i].score)
  }

  lemma ScoresDescSnoc(rest: seq<Recommendation>, x: Recommendation)
    requires ScoresDesc(rest)
    requires forall e :: e in rest ==> SquaredCosine(x.score) <= SquaredCosine(e.score)
    ensures ScoresDesc(rest + [x])
  {
    forall i, j | 0 <= i < j < |rest + [x]|
      ensures SquaredCosine((rest + [x])[j].score) <= SquaredCosine((rest + [x])[i].score)
    {
      assert (rest + [x])[i] == rest[i];
      if j < |rest| {
        assert (rest + [x])[j] == rest[j];
      } else {
        assert rest[i] in rest;
      }
    }
  }

  /** A candidate that scores no higher than all earlier ones scores no higher than all their entries. */
  lemma JoinedAboveLast(catalog: Option<seq<Product>>, init: seq<Candidate>, c: Candidate)
    requires forall d :: d in init ==> Value(c) <= Value(d)
    ensures forall e :: e in JoinCatalog(catalog, init) ==> SquaredCosine(c.score) <= SquaredCosine(e.score)
  {
    JoinCatalogEntries(catalog, init);
    forall e | e in JoinCatalog(catalog, init)
      ensures SquaredCosine(c.score) <= SquaredCosine(e.score)
    {
      var d :| d in init && Lookup(catalog, d.id).Some? && e == Entry(d, Lookup(catalog, d.id).value);
    }
  }

  /** The join keeps the order of the candidates, hence their descending scores. */
  lemma {:induction false} JoinSorted(catalog: Option<seq<Product>>, sel: seq<Candidate>)
    requires SortedDesc(sel)
    ensures ScoresDesc(JoinCatalog(catalog, sel))
  {
    if sel != [] {
      var init, c := sel[..|sel| - 1], sel[|sel| - 1];
      assert sel == init + [c];
      SortedSplit(init, c);
      JoinSorted(catalog, init);
      JoinCatalogSnoc(catalog, init, c);
      match Lookup(catalog, c.id)
      case None =>
      case Some(p) =>
        JoinedAboveLast(catalog, init, c);
        ScoresDescSnoc(JoinCatalog(catalog, init), Entry(c, p));
    }
  }

  /** Entries with equal scores appear in ascending id order. */
  predicate EntryTiesInIdOrder(r: seq<Recommendation>)
  {
    forall i, j :: 0 <= i < j < |r| && SquaredCosine(r[i].score) == SquaredCosine(r[j].score) ==> r[i].id < r[j].id
  }

  lemma EntryTiesSnoc(rest: seq<Recommendation>, x: Recommendation)
    requires EntryTiesInIdOrder(rest)
    requires forall e :: e in rest && SquaredCosine(e.score) == SquaredCosine(x.score) ==> e.id < x.id
    ensures EntryTiesInIdOrder(rest + [x])
  {
    forall i, j | 0 <= i < j < |rest + [x]| && SquaredCosine((rest + [x])[i].score) == SquaredCosine((rest + [x])[j].score)
      ensures (rest + [x])[i].id < (rest + [x])[j].id
    {
      assert (rest + [x])[i] == rest[i];
      if j < |rest| {
        assert (rest + [x])[j] == rest[j];
      } else {
        assert rest[i] in rest;
      }
    }
  }

  /** Splitting off the last candidate of a selection whose ties are in id order. */
  lemma TiesSplit(init: seq<Candidate>, c: Candidate)
    requires TiesInIdOrder(init + [c])
    ensures TiesInIdOrder(init)
    ensures forall d :: d in init && Value(d) == Value(c) ==> d.id < c.id
  {
    var s := init + [c];
    forall i, j | 0 <= i < j < |init| && Value(init[i]) == Value(init[j])
      ensures init[i].id < init[j].id
    {
      assert init[i] == s[i] && init[j] == s[j];
    }
    forall d | d in init && Value(d) == Value(c)
      ensures d.id < c.id
    {
      var t :| 0 <= t < |init| && init[t] == d;
      assert s[t] == d && s[|init|] == c;
    }
  }

  /** The join keeps the candidates' order, hence the id order among equal scores. */
  lemma {:induction false} JoinTies(catalog: Option<seq<Product>>, sel: seq<Candidate>)
    requires TiesInIdOrder(sel)
    ensures EntryTiesInIdOrder(JoinCatalog(catalog, sel))
  {
    if sel != [] {
      var init, c := sel[..|sel| - 1], sel[|sel| - 1];
      assert sel == init + [c];
      TiesSplit(init, c);
      JoinTies(catalog, init);
      JoinCatalogSnoc(catalog, init, c);
      match Lookup(catalog, c.id)
      case None =>
      case Some(p) =>
        JoinCatalogEntries(catalog, init);
        forall e | e in JoinCatalog(catalog, init) && SquaredCosine(e.score) == Value(c)
          ensures e.id < c.id
        {
          var d :| d in init && Lookup(catalog, d.id).Some? && e == Entry(d, Lookup(catalog, d.id).value);
        }
        EntryTiesSnoc(JoinCatalog(catalog, init), Entry(c, p));
    }
  }

  function IndexOf(s: seq<int>, x: int): (r: Option<nat>)
    ensures r.None? <==> x !in s
    ensures r.Some? ==> r.value < |s| && s[r.value] == x
  {
    if s == [] then None
    else if s[0] == x then Some(0)
    else match IndexOf(s[1..], x)
      case None => None
      case Some(k) => Some(k + 1)
  }

  /**
   * `create_recommendation_matrix` over the loaded purchase table. It yields
   * None when the table is missing or empty, the two cases in which the pivot
   * or the cosine computation raises and the method's handler returns None.
   */
  function RecommendationMatrix(purchases: Option<seq<Purchase>>): (r: Option<SimilarityMatrix>)
    ensures r.Some? <==> purchases.Some? && purchases.value != []
    ensures r.Some? ==> r.value.Square()
    ensures r.Some? ==> forall p :: p in r.value.products <==> exists e :: e in purchases.value && e.product == p
  {
    match purchases
    case None => None
    case Some(ps) => if ps == [] then None else Some(CosineSimilarity(PivotCounts(ps)))
  }

  /** `similarity_df[id]`: the column of product `k`, labelled by the row product ids. */
  function SimilarityColumn(sim: SimilarityMatrix, k: int): seq<Candidate>
    requires sim.Square() && 0 <= k < |sim.products|
  {
    seq(|sim.products|, j requires 0 <= j < |sim.products| => Candidate(sim.products[j], sim.scores[j][k]))
  }

  /**
   * What `get_recommendations(id, n)` returns for the loaded tables: nothing
   * without a purchase table or for a product never purchased (its column is
   * missing), and never more than `n` entries.
   */
  function Recommend(catalog: Option<seq<Product>>, purchases: Option<seq<Purchase>>, id: int, n: int): (r: seq<Recommendation>)
    ensures purchases.None? || !Purchased(purchases.value, id) ==> r == []
    ensures n >= 0 ==> |r| <= n
  {
    match RecommendationMatrix(purchases)
    case None => []
    case Some(sim) =>
      match IndexOf(sim.products, id)
      case None => []
      case Some(k) => JoinCatalog(catalog, Select(SimilarityColumn(sim, k), id, n))
  }

  /** The similarity of two purchased products, 0 when either has no column. */
  function SimilarityOf(ps: seq<Purchase>, p: int, q: int): Score
  {
    var sim := CosineSimilarity(PivotCounts(ps));
    match (IndexOf(sim.products, p), IndexOf(sim.products, q))
    case (Some(i), Some(j)) => sim.scores[i][j]
    case _ => Score(0, 0)
  }

  predicate Purchased(ps: seq<Purchase>, id: int)
  {
    exists e :: e in ps && e.product == id
  }

  /** Unfolds Recommend for a purchased product. */
  lemma RecommendUnfold(catalog: Option<seq<Product>>, ps: seq<Purchase>, id: int, n: int)
    returns (sim: SimilarityMatrix, k: nat, col: seq<Candidate>)
    requires Purchased(ps, id)
    ensures sim == CosineSimilarity(PivotCounts(ps)) && sim.Square()
    ensures k < |sim.products| && sim.products[k] == id && IndexOf(sim.products, id) == Some(k)
    ensures col == SimilarityColumn(sim, k)
    ensures Recommend(catalog, Some(ps), id, n) == JoinCatalog(catalog, Select(col, id, n))
  {
    var e :| e in ps && e.product == id;
    sim := CosineSimilarity(PivotCounts(ps));
    assert RecommendationMatrix(Some(ps)) == Some(sim);
    assert id in sim.products;
    k := IndexOf(sim.products, id).value;
    col := SimilarityColumn(sim, k);
  }

  /** The queried product never appears in its own recommendations. */
  lemma RecommendExcludesSelf(catalog: Option<seq<Product>>, purchases: Option<seq<Purchase>>, id: int, n: int)
    ensures forall e :: e in Recommend(catalog, purchases, id, n) ==> e.id != id
  {
    if purchases.Some? && Purchased(purchases.value, id) {
      var sim, k, col := RecommendUnfold(catalog, purchases.value, id, n);
      SelectionFromColumn(col, SortDesc(col), id, n);
      JoinCatalogEntries(catalog, Select(col, id, n));
    }
  }

  /** Recommendations come out in non-increasing order of similarity. */
  lemma RecommendSorted(catalog: Option<seq<Product>>, purchases: Option<seq<Purchase>>, id: int, n: int)
    ensures ScoresDesc(Recommend(catalog, purchases, id, n))
  {
    if purchases.Some? && Purchased(purchases.value, id) {
      var sim, k, col := RecommendUnfold(catalog, purchases.value, id, n);
      SelectionSorted(SortDesc(col), id, n);
      JoinSorted(catalog, Select(col, id, n));
    }
  }

  /** Every recommendation is another purchased product: a product without purchases has no column to be drawn from. */
  lemma RecommendPurchased(catalog: Option<seq<Product>>, ps: seq<Purchase>, id: int, n: int)
    ensures forall e :: e in Recommend(catalog, Some(ps), id, n) ==> Purchased(ps, e.id) && e.id != id
  {
    if Purchased(ps, id) {
      var sim, k, col := RecommendUnfold(catalog, ps, id, n);
      SelectionFromColumn(col, SortDesc(col), id, n);
      ColumnIdsPurchased(ps, sim, k);
      JoinCatalogEntries(catalog, Select(col, id, n));
    }
  }

  /** Recommendations with equal scores come out in ascending product id order. */
  lemma RecommendTiesInIdOrder(catalog: Option<seq<Product>>, purchases: Option<seq<Purchase>>, id: int, n: int)
    ensures EntryTiesInIdOrder(Recommend(catalog, purchases, id, n))
  {
    if purchases.Some? && Purchased(purchases.value, id) {
      var sim, k, col := RecommendUnfold(catalog, purchases.value, id, n);
      ColumnIdsAscending(sim, k);
      JoinTies(catalog, Select(col, id, n));
    }
  }

  /** At most one entry per other purchased product. */
  lemma RecommendLength(catalog: Option<seq<Product>>, purchases: Option<seq<Purchase>>, id: int, n: int)
    ensures var r := Recommend(catalog, purchases, id, n);
      r != [] ==> purchases.Some? && |r| <= |PivotCounts(purchases.value).products| - 1
  {
    if purchases.Some? && Purchased(purchases.value, id) {
      var sim, k, col := RecommendUnfold(catalog, purchases.value, id, n);
      DistinctColumn(sim, k);
      SelectionLength(col, SortDesc(col), id, n, k);
    }
  }

  /** The column labels are the strictly increasing product ids, so they are distinct. */
  lemma DistinctColumn(sim: SimilarityMatrix, k: int)
    requires sim.Square() && 0 <= k < |sim.products| && StrictlyIncreasing(sim.products)
    ensures DistinctIds(SimilarityColumn(sim, k))
  {
  }

  lemma ColumnIdsAscending(sim: SimilarityMatrix, k: int)
    requires sim.Square() && 0 <= k < |sim.products| && StrictlyIncreasing(sim.products)
    ensures IdsAscending(SimilarityColumn(sim, k))
  {
  }

  /** Every label of a similarity column is a purchased product. */
  lemma ColumnIdsPurchased(ps: seq<Purchase>, sim: SimilarityMatrix, k: int)
    requires sim == CosineSimilarity(PivotCounts(ps)) && 0 <= k < |sim.products|
    ensures forall c :: c in SimilarityColumn(sim, k) ==> Purchased(ps, c.id)
  {
    var col := SimilarityColumn(sim, k);
    forall c | c in col
      ensures Purchased(ps, c.id)
    {
      var j :| 0 <= j < |col| && col[j] == c;
      assert c.id in PivotCounts(ps).products;
    }
  }

  /** With every column entry in the catalog, the join loses nothing of the selection. */
  lemma JoinedSelectionLength(catalog: Option<seq<Product>>, col: seq<Candidate>, r: seq<Candidate>, id: int, n: int, at: int)
    requires IsRanking(col, r) && DistinctIds(col) && 0 <= at < |col| && col[at].id == id
    requires forall c :: c in col ==> Lookup(catalog, c.id).Some?
    ensures |JoinCatalog(catalog, Head(DropId(r, id), n))| == HeadLength(|col| - 1, n)
  {
    var sel := Head(DropId(r, id), n);
    SelectionLength(col, r, id, n, at);
    SelectionFromColumn(col, r, id, n);
    JoinCatalogEntries(catalog, sel);
  }

  /** When every purchased product has a catalog row, `head(n)` of all other purchased products is returned. */
  lemma RecommendLengthExact(catalog: Option<seq<Product>>, ps: seq<Purchase>, id: int, n: int)
    requires Purchased(ps, id)
    requires forall e :: e in ps ==> Lookup(catalog, e.product).Some?
    ensures |Recommend(catalog, Some(ps), id, n)| == HeadLength(|PivotCounts(ps).products| - 1, n)
  {
    var sim, k, col := RecommendUnfold(catalog, ps, id, n);
    DistinctColumn(sim, k);
    ColumnIdsPurchased(ps, sim, k);
    forall c | c in col
      ensures Lookup(catalog, c.id).Some?
    {
      var e :| e in ps && e.product == c.id;
    }
    JoinedSelectionLength(catalog, col, SortDesc(col), id, n, k);
  }

  lemma StrictlyIncreasingIndex(s: seq<int>, j: int)
    requires StrictlyIncreasing(s) && 0 <= j < |s|
    ensures IndexOf(s, s[j]) == Some(j)
  {
  }

  /** SimilarityOf reads the similarity matrix at the two products' positions. */
  lemma SimilarityOfAt(ps: seq<Purchase>, i: int, j: int)
    requires 0 <= i < |PivotCounts(ps).products| && 0 <= j < |PivotCounts(ps).products|
    ensures var m := PivotCounts(ps);
      SimilarityOf(ps, m.products[i], m.products[j]) == CosineSimilarity(m).scores[i][j]
  {
    var m := PivotCounts(ps);
    StrictlyIncreasingIndex(m.products, i);
    StrictlyIncreasingIndex(m.products, j);
  }

  /** Each entry of the column of product `k` scores its similarity to that product. */
  lemma ColumnScores(ps: seq<Purchase>, sim: SimilarityMatrix, k: int, c: Candidate)
    requires sim == CosineSimilarity(PivotCounts(ps)) && 0 <= k < |sim.products|
    requires c in SimilarityColumn(sim, k)
    ensures c.score == SimilarityOf(ps, c.id, sim.products[k])
  {
    var col := SimilarityColumn(sim, k);
    var j :| 0 <= j < |col| && col[j] == c;
    SimilarityOfAt(ps, j, k);
  }

  /** Each entry carries the first catalog row of its id and its similarity to the queried product. */
  lemma RecommendFromCatalog(catalog: Option<seq<Product>>, ps: seq<Purchase>, id: int, n: int)
    ensures forall e :: e in Recommend(catalog, Some(ps), id, n) ==>
      && Lookup(catalog, e.id).Some?
      && e.name == Lookup(catalog, e.id).value.name
      && e.category == Lookup(catalog, e.id).value.category
      && e.price == Lookup(catalog, e.id).value.price
      && e.score == SimilarityOf(ps, e.id, id)
  {
    if Purchased(ps, id) {
      var sim, k, col := RecommendUnfold(catalog, ps, id, n);
      SelectionFromColumn(col, SortDesc(col), id, n);
      var sel := Select(col, id, n);
      JoinCatalogEntries(catalog, sel);
      forall e | e in Recommend(catalog, Some(ps), id, n)
        ensures Lookup(catalog, e.id).Some?
        ensures e.name == Lookup(catalog, e.id).value.name && e.category == Lookup(catalog, e.id).value.category
        ensures e.price == Lookup(catalog, e.id).value.price
        ensures e.score == SimilarityOf(ps, e.id, id)
      {
        var c :| c in sel && Lookup(catalog, c.id).Some? && e == Entry(c, Lookup(catalog, c.id).value);
        ColumnScores(ps, sim, k, c);
      }
    }
  }

  /** A column entry in the catalog but not returned scores no higher than any returned entry. */
  lemma JoinedSelectionIsTop(catalog: Option<seq<Product>>, col: seq<Candidate>, r: seq<Candidate>, id: int, n: int, cq: Candidate)
    requires IsRanking(col, r) && cq in col && cq.id != id && Lookup(catalog, cq.id).Some?
    requires forall e :: e in JoinCatalog(catalog, Head(DropId(r, id), n)) ==> e.id != cq.id
    ensures forall e :: e in JoinCatalog(catalog, Head(DropId(r, id), n)) ==> Value(cq) <= SquaredCosine(e.score)
  {
    var sel := Head(DropId(r, id), n);
    var recs := JoinCatalog(catalog, sel);
    JoinCatalogEntries(catalog, sel);
    var ecq := Entry(cq, Lookup(catalog, cq.id).value);
    assert cq in sel ==> ecq in recs;
    assert ecq !in recs;
    assert cq !in sel;
    SelectionIsTopFor(col, r, id, n, cq);
    forall e | e in recs
      ensures Value(cq) <= SquaredCosine(e.score)
    {
      var d :| d in sel && Lookup(catalog, d.id).Some? && e == Entry(d, Lookup(catalog, d.id).value);
      assert Value(cq) <= Value(d);
    }
  }

  /**
   * The selection is taken from the top of the ranking: another purchased
   * product that has a catalog row but is not returned scores no higher
   * than any returned entry.
   */
  lemma RecommendIsTop(catalog: Option<seq<Product>>, ps: seq<Purchase>, id: int, n: int, q: int)
    requires Purchased(ps, q) && q != id && Lookup(catalog, q).Some?
    requires forall e :: e in Recommend(catalog, Some(ps), id, n) ==> e.id != q
    ensures forall e :: e in Recommend(catalog, Some(ps), id, n) ==>
      SquaredCosine(SimilarityOf(ps, q, id)) <= SquaredCosine(e.score)
  {
    if Purchased(ps, id) {
      var sim, k, col := RecommendUnfold(catalog, ps, id, n);
      assert q in sim.products;
      var j :| 0 <= j < |sim.products| && sim.products[j] == q;
      SimilarityOfAt(ps, j, k);
      JoinedSelectionIsTop(catalog, col, SortDesc(col), id, n, col[j]);
    }
  }

  /** The recommender object: the catalog and purchase tables it has loaded (None before loading). */
  class ProductRecommender {
    var products: Option<seq<Product>>
    var purchases: Option<seq<Purchase>>

    constructor()
      ensures products == None && purchases == None
    {
      products := None;
      purchases := None;
    }

    /**
     * `load_data`. The file reads are parameters (None: the read raised).
     * The catalog field is assigned before the purchase file is read, so a
     * failing purchase read leaves the new catalog and the old purchases.
     */
    method LoadData(productsRead: Option<seq<Product>>, purchasesRead: Option<seq<Purchase>>) returns (ok: bool)
      modifies this
      ensures ok <==> productsRead.Some? && purchasesRead.Some?
      ensures products == if productsRead.Some? then productsRead else old(products)
      ensures purchases == if ok then purchasesRead else old(purchases)
    {
      if productsRead.None? {
        return false;
      }
      products := productsRead;
      if purchasesRead.None? {
        return false;
      }
      purchases := purchasesRead;
      ok := true;
    }

    /** `create_recommendation_matrix`. */
    function CreateRecommendationMatrix(): (r: Option<SimilarityMatrix>)
      reads this
      ensures r.Some? <==> purchases.Some? && purchases.value != []
      ensures r.Some? ==> r.value.Square()
      ensures r.Some? ==> forall p :: p in r.value.products <==> Purchased(purchases.value, p)
    {
      RecommendationMatrix(purchases)
    }

    /** `get_product_info`. */
    function GetProductInfo(id: int): (r: Option<Product>)
      reads this
      ensures r.None? <==> products.None? || forall k :: 0 <= k < |products.value| ==> products.value[k].id != id
      ensures r.Some? ==> r.value.id == id
      ensures r.Some? ==> exists k :: 0 <= k < |products.value| && products.value[k] == r.value
                           && (forall k' :: 0 <= k' < k ==> products.value[k'].id != id)
    {
      Lookup(products, id)
    }

    /** `get_recommendations`. */
    method GetRecommendations(id: int, n: int := 3) returns (recs: seq<Recommendation>)
      ensures recs == Recommend(products, purchases, id, n)
      ensures forall e :: e in recs ==> e.id != id
      ensures n >= 0 ==> |recs| <= n
      ensures ScoresDesc(recs)
      ensures EntryTiesInIdOrder(recs)
      ensures purchases.Some? ==> forall e :: e in recs ==> Purchased(purchases.value, e.id)
    {
      RecommendExcludesSelf(products, purchases, id, n);
      RecommendSorted(products, purchases, id, n);
      RecommendTiesInIdOrder(products, purchases, id, n);
      if purchases.Some? {
        RecommendPurchased(products, purchases.value, id, n);
      }
      var sim := CreateRecommendationMatrix();
      if sim.None? {
        return [];
      }
      var k := IndexOf(sim.value.products, id);
      if k.None? {
        return [];
      }
      var top := Select(SimilarityColumn(sim.value, k.value), id, n);
      recs := AttachCatalogInfo(top);
    }

    /** The result loop: look each candidate up in the catalog and append the found ones. */
    method AttachCatalogInfo(top: seq<Candidate>) returns (recs: seq<Recommendation>)
      ensures recs == JoinCatalog(products, top)
    {
      recs := [];
      var i := 0;
      while i < |top|
        invariant 0 <= i <= |top|
        invariant recs == JoinCatalog(products, top[..i])
      {
        var info := GetProductInfo(top[i].id);
        assert top[..i + 1] == top[..i] + [top[i]];
        JoinCatalogSnoc(products, top[..i], top[i]);
        if info.Some? {
          recs := recs + [Entry(top[i], info.value)];
        }
        i := i + 1;
      }
      assert top[..|top|] == top;
    }
  }
}
