# Item-to-item product recommender, modelled in Dafny

This project models the recommendation engine of a small product-recommendation
service (`recommendation_engine.py`, class `ProductRecommender`). The engine holds
two loaded tables: the product catalog and the purchase events. For a queried
product it does four things:

1. It builds a user x product pivot table of purchase counts. Rows are the
   distinct user ids and columns the distinct product ids of the purchase
   events, both ascending. The catalog plays no part here.
2. It computes the cosine similarity between every pair of product columns.
3. It takes the queried product's similarity column, sorts it in descending
   order, drops the queried product and keeps the first `n` entries.
4. It joins each kept candidate with its first catalog row. A candidate that
   has no catalog row is skipped.

Modules, one per file:

- `Wrappers` (`wrappers.dfy`): `Option`.
- `Catalog` (`catalog.dfy`): product and purchase records, and the first-match lookup.
- `Interactions` (`interactions.dfy`): the event count per pair, the sorted distinct axis labels and the pivot table.
- `Similarity` (`similarity.dfy`): integer dot products, the Cauchy-Schwarz inequality and the similarity matrix.
- `Ranking` (`ranking.dfy`): the descending sort, `drop`, `head`, and what the selection guarantees.
- `Recommender` (`recommender.dfy`): the catalog join, the whole query as the function `Recommend`, and the class `ProductRecommender`.

The class's state is the two tables. Each is an `Option`, `None` before it is
loaded. `GetRecommendations` is a method that calls `AttachCatalogInfo`, whose
loop appends the joined entries; that loop is proved equal to `JoinCatalog`.
`GetRecommendations` is proved equal to `Recommend`, and the properties of
`Recommend` are lemmas.

Similarity is exact. A `Score` keeps the cosine's integer ingredients: the dot
product, and the product of the two squared norms. `SquaredCosine` is the exact
rational square of the cosine. Counts are never negative, so cosines are never
negative, and ordering by the squared cosine is the same as ordering by the
cosine. A zero vector scores 0, as in scikit-learn.

Behaviour at the edges, in the model:

- A product id with no similarity column gives an empty list, not a
  "not found" error, as the code's handler does. This covers an id that
  occurs in no purchase event, whether or not the catalog has it. The
  queried id itself is never looked up in the catalog.
- Equal exact scores come out in ascending product id order. The model's
  sort is stable, and the column it sorts is labelled by ascending product
  ids (see "Tie order" under Left out).
- Scores are exact and not rounded, whereas the code returns
  `round(similarity, 3)` (see "Floating point" under Left out).

## Model

| member | source | states |
|---|---|---|
| `Catalog.FirstMatch` | recommendation_engine.py:67-70 | None exactly when no catalog row has the id; otherwise the row with the lowest position among those with that id |
| `Recommender.Lookup` | recommendation_engine.py:64-72 | None when the catalog is not loaded (the bare handler) or has no row with the id; a found row has that id and is a catalog row |
| `Interactions.Count` | recommendation_engine.py:40-45 | the group size for a (user, product) pair is at most the number of events, and positive exactly when that pair was purchased |
| `Interactions.CountIsMultiplicity` | recommendation_engine.py:40-45 | the count for a pair equals how many times that event occurs among the purchases |
| `Interactions.SortedKeys` | recommendation_engine.py:40-45 | the axis labels are strictly ascending (so distinct) and are exactly the values that occur |
| `Interactions.PivotCounts` | recommendation_engine.py:40-45 | the matrix is rectangular; its rows are exactly the users and its columns exactly the products that occur in the purchases (not the catalog), both ascending |
| `Interactions.PivotCell` | recommendation_engine.py:40-45 | each cell equals the number of events with that row's user and that column's product |
| `Interactions.PurchasedCell` | recommendation_engine.py:40-45 | every product column has a positive cell |
| `Interactions.GridAccountsForEveryEvent` | recommendation_engine.py:40-45 | over axes listing every user and product once, the counts add up to the number of events |
| `Interactions.PivotTotal` | recommendation_engine.py:40-45 | the pivot table's cells add up to the number of purchase events |
| `Similarity.Dot` | recommendation_engine.py:50 | the dot product of two product columns is positive exactly when some user bought both products |
| `Similarity.DotSymmetric` | recommendation_engine.py:50 | the dot product does not depend on the order of its arguments |
| `Similarity.CauchySchwarz` | recommendation_engine.py:50 | dot(u,v)^2 <= ‖u‖^2 ‖v‖^2 for count vectors |
| `Similarity.Cosine` | recommendation_engine.py:50 | the squared cosine of two count columns is at most 1, and the score is 0 with no norm to divide by exactly when one of the columns is all zeros |
| `Similarity.CosineSymmetric` | recommendation_engine.py:50 | cos(u,v) = cos(v,u) |
| `Similarity.CosineInUnitRange` | recommendation_engine.py:50 | the cosine of two count vectors lies in [0, 1] |
| `Similarity.CosineSelf` | recommendation_engine.py:50 | a non-zero vector has cosine 1 with itself |
| `Similarity.CosineSimilarity` | recommendation_engine.py:50-55 | the similarity frame is square and labelled by the pivot table's product columns on both axes |
| `Similarity.SimilaritySymmetric` | recommendation_engine.py:50-55 | score(i,j) = score(j,i) for every pair of columns |
| `Similarity.SimilarityInUnitRange` | recommendation_engine.py:50-55 | every score lies in [0, 1] |
| `Similarity.PurchasedColumnNonZero` | recommendation_engine.py:40-50 | every product column of the pivot table has a positive norm |
| `Similarity.SelfSimilarityIsOne` | recommendation_engine.py:40-55 | every purchased product has the maximal score 1 with itself |
| `Ranking.InsertDesc` | recommendation_engine.py:81 | inserting into a descending sequence keeps it descending and adds exactly that entry |
| `Ranking.SortDesc` | recommendation_engine.py:81 | the result is a descending permutation of the column |
| `Ranking.InsertDescTies` | recommendation_engine.py:81 | inserting an entry whose id exceeds every id present keeps equal scores in ascending id order |
| `Ranking.SortDescTies` | recommendation_engine.py:81 | sorting a column labelled by ascending ids leaves equal scores in ascending id order, as a stable descending sort does |
| `Ranking.DropId` | recommendation_engine.py:84 | every entry with the dropped id is removed and every other entry is kept with its multiplicity |
| `Ranking.DropIdMembers` | recommendation_engine.py:84 | an entry survives the drop exactly when it was there and has another id |
| `Ranking.HeadLength` | recommendation_engine.py:84 | `head(n)` keeps n rows at most, and fewer only when the input runs out; a negative n keeps all but the last -n rows |
| `Ranking.DropIdSorted` | recommendation_engine.py:84 | dropping entries keeps the descending order |
| `Ranking.DropIdTies` | recommendation_engine.py:84 | dropping entries keeps equal scores in ascending id order |
| `Ranking.DropIdUnique` | recommendation_engine.py:84 | with distinct ids, dropping a present id removes exactly one entry |
| `Ranking.DropIdPermutation` | recommendation_engine.py:81-84 | the drop gives the same multiset whatever order the sort left ties in |
| `Ranking.SelectionFromColumn` | recommendation_engine.py:81-84 | every selected entry comes from the similarity column and is not the queried product |
| `Ranking.SelectionSorted` | recommendation_engine.py:81-84 | the selection is in non-increasing score order |
| `Ranking.SelectionIsTopFor` | recommendation_engine.py:81-84 | a given column entry that is not the queried product and was not selected scores no higher than every selected entry |
| `Ranking.SelectionIsTop` | recommendation_engine.py:81-84 | the same for all such entries at once, for any descending ordering of ties |
| `Ranking.SelectionLength` | recommendation_engine.py:84 | with distinct ids, exactly `head(n)` of the other `columns - 1` entries are selected |
| `Ranking.SelectionTies` | recommendation_engine.py:81-84 | for a column labelled by ascending ids, the selection lists equal scores in ascending id order |
| `Ranking.Select` | recommendation_engine.py:81-84 | the selection holds only column entries other than the queried product, in descending order, at most n of them, with equal scores in ascending id order |
| `Recommender.JoinCatalog` | recommendation_engine.py:87-97 | the join returns no more entries than there are candidates |
| `Recommender.JoinCatalogSnoc` | recommendation_engine.py:88-97 | one loop step appends the candidate's entry when its lookup succeeds, and nothing otherwise |
| `Recommender.JoinCatalogEntries` | recommendation_engine.py:88-97 | every entry is a candidate joined with its catalog row; every candidate with a row is returned; with a row for every candidate nothing is lost |
| `Recommender.JoinSorted` | recommendation_engine.py:88-97 | the join keeps the candidates' order, so scores stay non-increasing |
| `Recommender.JoinTies` | recommendation_engine.py:88-97 | the join keeps the candidates' order, so equal scores stay in ascending id order |
| `Recommender.IndexOf` | recommendation_engine.py:81 | no position exactly when the id labels no column (the lookup raises and the handler returns an empty list); otherwise a position holding that id |
| `Recommender.RecommendationMatrix` | recommendation_engine.py:35-62 | a matrix exists exactly when purchases are loaded and non-empty; it is square and labelled by exactly the purchased products |
| `Recommender.Recommend` | recommendation_engine.py:74-103 | no recommendations without a purchase table or for a product never purchased, and never more than n for n >= 0 |
| `Recommender.RecommendExcludesSelf` | recommendation_engine.py:84 | the queried product never appears in its own recommendations |
| `Recommender.RecommendSorted` | recommendation_engine.py:81-97 | recommendations are in non-increasing order of similarity |
| `Recommender.RecommendPurchased` | recommendation_engine.py:40-97 | every returned entry is another purchased product: a product without purchases has no similarity column and is never recommended |
| `Recommender.RecommendTiesInIdOrder` | recommendation_engine.py:81-97 | recommendations with equal scores come out in ascending product id order |
| `Recommender.RecommendLength` | recommendation_engine.py:84-97 | at most (number of purchased products - 1) entries |
| `Recommender.ColumnIdsPurchased` | recommendation_engine.py:40-55 | every label of a similarity column is a purchased product |
| `Recommender.JoinedSelectionLength` | recommendation_engine.py:84-97 | when every column entry has a catalog row, the result has exactly `head(n)` of the other entries |
| `Recommender.RecommendLengthExact` | recommendation_engine.py:84-97 | when every purchased product is in the catalog, the result length is `head(n)` of (purchased products - 1), not n |
| `Recommender.SimilarityOfAt` | recommendation_engine.py:50-55 | the pair score reads the similarity matrix at the two products' positions |
| `Recommender.ColumnScores` | recommendation_engine.py:50-55 | each entry of a product's similarity column scores its similarity to that product |
| `Recommender.RecommendFromCatalog` | recommendation_engine.py:64-72 | each entry has a catalog row for its id, carries that first row's name, category and price, and carries its similarity to the queried product |
| `Recommender.JoinedSelectionIsTop` | recommendation_engine.py:81-97 | a column entry that has a catalog row but is not returned scores no higher than any returned entry |
| `Recommender.RecommendIsTop` | recommendation_engine.py:81-97 | another purchased product that is in the catalog but not returned scores no higher than every returned entry |
| `Recommender.ProductRecommender.constructor` | recommendation_engine.py:8-10 | a new recommender has neither table loaded |
| `Recommender.ProductRecommender.LoadData` | recommendation_engine.py:12-33 | success exactly when both reads succeed; the catalog is replaced as soon as its read succeeds, even if the purchase read then fails |
| `Recommender.ProductRecommender.CreateRecommendationMatrix` | recommendation_engine.py:35-62 | None exactly when purchases are missing or empty; otherwise a square frame labelled by exactly the purchased products |
| `Recommender.ProductRecommender.GetProductInfo` | recommendation_engine.py:64-72 | None when the catalog is not loaded or has no row with the id; otherwise the first row with that id |
| `Recommender.ProductRecommender.AttachCatalogInfo` | recommendation_engine.py:87-97 | the loop's result equals the catalog join of the selected candidates |
| `Recommender.ProductRecommender.GetRecommendations` | recommendation_engine.py:74-103 | the result equals `Recommend` for the loaded tables; it excludes the queried product, has at most n entries, is in non-increasing score order, lists equal scores in ascending id order, and holds only purchased products |

## Left out

- File input. Reading the two CSV files and trimming their column names is not modelled (recommendation_engine.py:12-33). `LoadData` takes the outcome of each read as a parameter, and `None` stands for a read that raised.
- Malformed tables. A table with a missing or misnamed column makes pandas raise, and the handler returns an empty list or None. The model's records are typed, so that case cannot arise.
- Floating point. The floating-point cosine, the square root in the norms and `round(similarity, 3)` are not modelled. Scores are exact, and ordering uses the exact squared cosine.
- Tie order. pandas promises no order among equal scores. Its descending sort of a column reverses, argsorts ascending and reverses again, so with an argsort that keeps equal values in place ties come out in column order, ascending id; numpy's portable quicksort does that for short columns, which it sorts by insertion (about 16 entries or fewer). The model fixes that order. Longer columns, and vectorised sort kernels, may order ties differently. The model's ties are ties in exact arithmetic: in the code, two cosines equal in exact arithmetic can differ in the last floating-point bit and are then ordered by that bit, and two scores that differ only after the third decimal are returned rounded to the same value yet in score order, so equal returned scores can be out of id order. All ranking properties other than the tie order are proved for any descending permutation of the column (`Ranking.IsRanking`).
- User order. The pivot table's rows are modelled in ascending user order, but no property depends on that order.
- Logging and the demo: the `print` diagnostics and `main` (recommendation_engine.py:105-151).
- The web layer `app.py`. It is not part of this model.
