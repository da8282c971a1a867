/**
 * The user x product interaction matrix built by `pivot_table(index='user_id',
 * columns='product_id', aggfunc='size', fill_value=0)`: rows are the distinct
 * user ids of the purchase events, columns the distinct product ids, both in
 * ascending order, and each cell counts the events of that (user, product) pair.
 */
module Interactions {
  import opened Catalog

  /** Number of purchase events of `user` for `product` (the size of that group). */
  function Count(ps: seq<Purchase>, user: int, product: int): (c: nat)
    ensures c <= |ps|
    ensures c > 0 <==> Purchase(user, product) in ps
  {
    if ps == [] then 0
    else
      var init := ps[..|ps| - 1];
      assert ps == init + [ps[|ps| - 1]];
      Count(init, user, product) + (if ps[|ps| - 1] == Purchase(user, product) then 1 else 0)
  }

  /** Appending one event adds one to exactly the cell of that event. */
  lemma CountSnoc(ps: seq<Purchase>, e: Purchase, user: int, product: int)
    ensures Count(ps + [e], user, product)
            == Count(ps, user, product) + (if e == Purchase(user, product) then 1 else 0)
  {
    assert (ps + [e])[..|ps|] == ps;
  }

  /** The group size is the multiplicity of the pair among the events. */
  lemma {:induction false} CountIsMultiplicity(ps: seq<Purchase>, user: int, product: int)
    ensures Count(ps, user, product) == multiset(ps)[Purchase(user, product)]
  {
    if ps != [] {
      var init, last := ps[..|ps| - 1], ps[|ps| - 1];
      assert ps == init + [last];
      CountIsMultiplicity(init, user, product);
    }
  }

  predicate StrictlyIncreasing(s: seq<int>)
  {
    forall i, j :: 0 <= i < j < |s| ==> s[i] < s[j]
  }

  lemma IncreasingCons(h: int, s: seq<int>)
    requires StrictlyIncreasing(s)
    requires forall y :: y in s ==> h < y
    ensures StrictlyIncreasing([h] + s)
  {
    forall i, j | 0 <= i < j < |[h] + s|
      ensures ([h] + s)[i] < ([h] + s)[j]
    {
      assert ([h] + s)[j] == s[j - 1];
      assert s[j - 1] in s;
      if i > 0 {
        assert ([h] + s)[i] == s[i - 1];
      }
    }
  }

  /** Adds `x` to an ascending key list unless it is already there. */
  function InsertKey(keys: seq<int>, x: int): (r: seq<int>)
    requires StrictlyIncreasing(keys)
    ensures StrictlyIncreasing(r)
    ensures forall y :: y in r <==> y in keys || y == x
  {
    if keys == [] then [x]
    else if x < keys[0] then [x] + keys
    else if x == keys[0] then keys
    else
      var rest := InsertKey(keys[1..], x);
      assert keys == [keys[0]] + keys[1..];
      assert forall y :: y in keys[1..] ==> keys[0] < y by {
        forall y | y in keys[1..]
          ensures keys[0] < y
        {
          var t :| 0 <= t < |keys[1..]| && keys[1..][t] == y;
          assert keys[t + 1] == y;
        }
      }
      IncreasingCons(keys[0], rest);
      [keys[0]] + rest
  }

  /** The distinct values of `xs` in ascending order (the pivot table's axis labels). */
  function SortedKeys(xs: seq<int>): (r: seq<int>)
    ensures StrictlyIncreasing(r)
    ensures forall y :: y in r <==> y in xs
  {
    if xs == [] then []
    else
      var init := xs[..|xs| - 1];
      assert xs == init + [xs[|xs| - 1]];
      InsertKey(SortedKeys(init), xs[|xs| - 1])
  }

  function UserIds(ps: seq<Purchase>): (r: seq<int>)
    ensures forall u :: u in r <==> exists e :: e in ps && e.user == u
  {
    if ps == [] then []
    else
      var init := ps[..|ps| - 1];
      assert ps == init + [ps[|ps| - 1]];
      UserIds(init) + [ps[|ps| - 1].user]
  }

  function ProductIds(ps: seq<Purchase>): (r: seq<int>)
    ensures forall p :: p in r <==> exists e :: e in ps && e.product == p
  {
    if ps == [] then []
    else
      var init := ps[..|ps| - 1];
      assert ps == init + [ps[|ps| - 1]];
      ProductIds(init) + [ps[|ps| - 1].product]
  }

  /** One matrix row: the counts of `user` against each column label in `products`. */
  function CountRow(ps: seq<Purchase>, user: int, products: seq<int>): (r: seq<nat>)
    ensures |r| == |products|
    ensures forall j :: 0 <= j < |products| ==> r[j] == Count(ps, user, products[j])
  {
    if products == [] then []
    else [Count(ps, user, products[0])] + CountRow(ps, user, products[1..])
  }

  function CountGrid(ps: seq<Purchase>, users: seq<int>, products: seq<int>): (g: seq<seq<nat>>)
    ensures |g| == |users|
    ensures forall i :: 0 <= i < |users| ==> g[i] == CountRow(ps, users[i], products)
  {
    if users == [] then []
    else [CountRow(ps, users[0], products)] + CountGrid(ps, users[1..], products)
  }

  datatype InteractionMatrix = InteractionMatrix(users: seq<int>, products: seq<int>, counts: seq<seq<nat>>)
  {
    /** Every row has one cell per product column. */
    predicate WellFormed()
    {
      && |counts| == |users|
      && forall i :: 0 <= i < |counts| ==> |counts[i]| == |products|
    }
  }

  /** The pivot table of the purchase events. */
  function PivotCounts(ps: seq<Purchase>): (m: InteractionMatrix)
    ensures m.WellFormed()
    ensures StrictlyIncreasing(m.users) && StrictlyIncreasing(m.products)
    ensures forall u :: u in m.users <==> exists e :: e in ps && e.user == u
    ensures forall p :: p in m.products <==> exists e :: e in ps && e.product == p
  {
    var users := SortedKeys(UserIds(ps));
    var products := SortedKeys(ProductIds(ps));
    InteractionMatrix(users, products, CountGrid(ps, users, products))
  }

  /** Each cell is the number of events with that row's user and that column's product. */
  lemma PivotCell(ps: seq<Purchase>, i: int, j: int)
    requires 0 <= i < |PivotCounts(ps).users| && 0 <= j < |PivotCounts(ps).products|
    ensures var m := PivotCounts(ps);
      m.counts[i][j] == multiset(ps)[Purchase(m.users[i], m.products[j])]
  {
    var m := PivotCounts(ps);
    CountIsMultiplicity(ps, m.users[i], m.products[j]);
  }

  /** Every product column of the pivot table has a cell with at least one event. */
  lemma PurchasedCell(ps: seq<Purchase>, j: int) returns (i: nat)
    requires 0 <= j < |PivotCounts(ps).products|
    ensures i < |PivotCounts(ps).users| && PivotCounts(ps).counts[i][j] > 0
  {
    var m := PivotCounts(ps);
    var p := m.products[j];
    assert p in m.products;
    var e :| e in ps && e.product == p;
    assert e.user in m.users;
    i :| 0 <= i < |m.users| && m.users[i] == e.user;
    var row := CountRow(ps, e.user, m.products);
    assert m.counts[i] == row;
    assert row[j] == Count(ps, e.user, p);
  }

  function Sum(s: seq<nat>): nat
  {
    if s == [] then 0 else s[0] + Sum(s[1..])
  }

  function GridSum(g: seq<seq<nat>>): nat
  {
    if g == [] then 0 else Sum(g[0]) + GridSum(g[1..])
  }

  lemma {:induction false} RowSumSnoc(ps: seq<Purchase>, e: Purchase, user: int, products: seq<int>)
    requires StrictlyIncreasing(products)
    ensures Sum(CountRow(ps + [e], user, products))
            == Sum(CountRow(ps, user, products)) + (if e.user == user && e.product in products then 1 else 0)
  {
    if products != [] {
      CountSnoc(ps, e, user, products[0]);
      RowSumSnoc(ps, e, user, products[1..]);
      assert e.product in products <==> e.product == products[0] || e.product in products[1..];
      if e.product == products[0] {
        assert e.product !in products[1..];
      }
    }
  }

  lemma {:induction false} GridSumSnoc(ps: seq<Purchase>, e: Purchase, users: seq<int>, products: seq<int>)
    requires StrictlyIncreasing(users) && StrictlyIncreasing(products)
    ensures GridSum(CountGrid(ps + [e], users, products))
            == GridSum(CountGrid(ps, users, products)) + (if e.user in users && e.product in products then 1 else 0)
  {
    if users != [] {
      RowSumSnoc(ps, e, users[0], products);
      GridSumSnoc(ps, e, users[1..], products);
      assert e.user in users <==> e.user == users[0] || e.user in users[1..];
      if e.user == users[0] {
        assert e.user !in users[1..];
      }
    }
  }

  lemma {:induction false} EmptyGridSum(users: seq<int>, products: seq<int>)
    ensures GridSum(CountGrid([], users, products)) == 0
  {
    if users != [] {
      EmptyRowSum(users[0], products);
      EmptyGridSum(users[1..], products);
    }
  }

  lemma {:induction false} EmptyRowSum(user: int, products: seq<int>)
    ensures Sum(CountRow([], user, products)) == 0
  {
    if products != [] {
      EmptyRowSum(user, products[1..]);
    }
  }

  /** Over axes that list every user and product once, the counts add up to the number of events. */
  lemma {:induction false} GridAccountsForEveryEvent(ps: seq<Purchase>, users: seq<int>, products: seq<int>)
    requires StrictlyIncreasing(users) && StrictlyIncreasing(products)
    requires forall e :: e in ps ==> e.user in users && e.product in products
    ensures GridSum(CountGrid(ps, users, products)) == |ps|
  {
    if ps == [] {
      EmptyGridSum(users, products);
    } else {
      var init, last := ps[..|ps| - 1], ps[|ps| - 1];
      assert ps == init + [last];
      GridAccountsForEveryEvent(init, users, products);
      GridSumSnoc(init, last, users, products);
    }
  }

  /** The cells of the pivot table add up to the number of purchase events: none is lost or counted twice. */
  lemma PivotTotal(ps: seq<Purchase>)
    ensures GridSum(PivotCounts(ps).counts) == |ps|
  {
    var m := PivotCounts(ps);
    forall e | e in ps
      ensures e.user in m.users && e.product in m.products
    {
    }
    GridAccountsForEveryEvent(ps, m.users, m.products);
  }
}
