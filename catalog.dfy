/**
 * The two loaded tables of the recommender: catalog rows and purchase events,
 * and the first-match lookup of a catalog row by product id.
 */
module Catalog {
  import opened Wrappers

  /** One row of the product catalog. */
  datatype Product = Product(id: int, name: string, category: string, price: real)

  /** One purchase event; repeated events for the same pair are all kept. */
  datatype Purchase = Purchase(user: int, product: int)

  /** Index of the first catalog row whose id is `id`, if there is one. */
  function FirstIndex(catalog: seq<Product>, id: int, from: nat): (r: Option<nat>)
    requires from <= |catalog|
    ensures r.None? <==> forall k :: from <= k < |catalog| ==> catalog[k].id != id
    ensures r.Some? ==> from <= r.value < |catalog| && catalog[r.value].id == id
    ensures r.Some? ==> forall k :: from <= k < r.value ==> catalog[k].id != id
    decreases |catalog| - from
  {
    if from == |catalog| then None
    else if catalog[from].id == id then Some(from)
    else FirstIndex(catalog, id, from + 1)
  }

  /**
   * The row selected by the boolean mask `product_id == id` followed by
   * `iloc[0]`: the first row with that id, or None when the mask is empty.
   */
  function FirstMatch(catalog: seq<Product>, id: int): (r: Option<Product>)
    ensures r.None? <==> forall k :: 0 <= k < |catalog| ==> catalog[k].id != id
    ensures r.Some? ==> exists k :: 0 <= k < |catalog| && catalog[k] == r.value
                         && (forall k' :: 0 <= k' < k ==> catalog[k'].id != id)
    ensures r.Some? ==> r.value.id == id
  {
    match FirstIndex(catalog, id, 0)
    case None => None
    case Some(k) => Some(catalog[k])
  }
}
