/**
 * Ranking of one similarity column: `sort_values(ascending=False)`, then
 * `drop(product_id)`, then `head(n)`. `SortDesc` is a stable descending sort:
 * equal scores keep their column order, which is ascending product id. The
 * order, drop and selection properties are proved for any descending
 * permutation of the column (`IsRanking`); the tie order for `SortDesc`.
 */
module Ranking {
  import opened Similarity

  /** One entry of a similarity column: a product id and its score against the queried product. */
  datatype Candidate = Candidate(id: int, score: Score)

  function Value(c: Candidate): real
  {
    SquaredCosine(c.score)
  }

  /** Non-increasing scores. */
  predicate SortedDesc(s: seq<Candidate>)
  {
    forall i, j :: 0 <= i < j < |s| ==> Value(s[j]) <= Value(s[i])
  }

  /** `r` holds the entries of `col` in non-increasing score order. */
  predicate IsRanking(col: seq<Candidate>, r: seq<Candidate>)
  {
    SortedDesc(r) && multiset(r) == multiset(col)
  }

  /** No product id occurs twice. */
  predicate DistinctIds(s: seq<Candidate>)
  {
    forall i, j :: 0 <= i < j < |s| ==> s[i].id != s[j].id
  }

  /** Labels in strictly ascending id order, as the columns of a similarity frame are. */
  predicate IdsAscending(s: seq<Candidate>)
  {
    forall i, j :: 0 <= i < j < |s| ==> s[i].id < s[j].id
  }

  /** Entries with equal scores appear in ascending id order. */
  predicate TiesInIdOrder(s: seq<Candidate>)
  {
    forall i, j :: 0 <= i < j < |s| && Value(s[i]) == Value(s[j]) ==> s[i].id < s[j].id
  }

  lemma SortedCons(x: Candidate, s: seq<Candidate>)
    requires SortedDesc(s)
    requires forall y :: y in s ==> Value(y) <= Value(x)
    ensures SortedDesc([x] + s)
  {
    forall i, j | 0 <= i < j < |[x] + s|
      ensures Value(([x] + s)[j]) <= Value(([x] + s)[i])
    {
      assert ([x] + s)[j] == s[j - 1];
      if i > 0 {
        assert ([x] + s)[i] == s[i - 1];
      }
    }
  }

  lemma SortedHeadIsMax(s: seq<Candidate>)
    requires SortedDesc(s) && s != []
    ensures forall y :: y in s ==> Value(y) <= Value(s[0])
  {
    forall y | y in s
      ensures Value(y) <= Value(s[0])
    {
      var k :| 0 <= k < |s| && s[k] == y;
    }
  }

  function InsertDesc(sorted: seq<Candidate>, c: Candidate): (r: seq<Candidate>)
    requires SortedDesc(sorted)
    ensures SortedDesc(r)
    ensures multiset(r) == multiset(sorted) + multiset{c}
  {
    if sorted == [] then [c]
    else if Value(sorted[0]) < Value(c) then
      SortedHeadIsMax(sorted);
      SortedCons(c, sorted);
      [c] + sorted
    else
      assert sorted == [sorted[0]] + sorted[1..];
      var rest := InsertDesc(sorted[1..], c);
      InsertedBelowHead(sorted, c, rest);
      SortedCons(sorted[0], rest);
      [sorted[0]] + rest
  }

  lemma InsertedBelowHead(sorted: seq<Candidate>, c: Candidate, rest: seq<Candidate>)
    requires SortedDesc(sorted) && sorted != [] && Value(c) <= Value(sorted[0])
    requires multiset(rest) == multiset(sorted[1..]) + multiset{c}
    ensures forall y :: y in rest ==> Value(y) <= Value(sorted[0])
  {
    SortedHeadIsMax(sorted);
    forall y | y in rest
      ensures Value(y) <= Value(sorted[0])
    {
      assert y in multiset(rest);
      if y != c {
        assert y in multiset(sorted[1..]);
        assert y in sorted;
      }
    }
  }

  /** Splitting off the last entry of a descending sequence. */
  lemma SortedSplit(init: seq<Candidate>, c: Candidate)
    requires SortedDesc(init + [c])
    ensures SortedDesc(init)
    ensures forall d :: d in init ==> Value(c) <= Value(d)
  {
    var s := init + [c];
    forall i, j | 0 <= i < j < |init|
      ensures Value(init[j]) <= Value(init[i])
    {
      assert init[i] == s[i] && init[j] == s[j];
    }
    forall d | d in init
      ensures Value(c) <= Value(d)
    {
      var t :| 0 <= t < |init| && init[t] == d;
      assert s[t] == d && s[|init|] == c;
    }
  }

  /** A stable descending sort of the column (insertion sort, each entry placed after the equal ones). */
  function SortDesc(col: seq<Candidate>): (r: seq<Candidate>)
    ensures IsRanking(col, r)
  {
    if col == [] then []
    else
      var init := col[..|col| - 1];
      assert col == init + [col[|col| - 1]];
      InsertDesc(SortDesc(init), col[|col| - 1])
  }

  /** `drop(id)`: removes every entry labelled `id` and keeps the rest in order. */
  function DropId(s: seq<Candidate>, id: int): (r: seq<Candidate>)
    ensures forall x :: multiset(r)[x] == if x.id == id then 0 else multiset(s)[x]
  {
    if s == [] then []
    else
      assert s == [s[0]] + s[1..];
      (if s[0].id == id then [] else [s[0]]) + DropId(s[1..], id)
  }

  lemma DropIdMembers(s: seq<Candidate>, id: int)
    ensures forall x :: x in DropId(s, id) <==> x in s && x.id != id
  {
    forall x
      ensures x in DropId(s, id) <==> x in s && x.id != id
    {
      assert x in DropId(s, id) <==> x in multiset(DropId(s, id));
      assert x in s <==> x in multiset(s);
    }
  }

  /** Number of rows `head(n)` keeps out of `len`: `n` at most, and for a negative `n` all but the last `-n`. */
  function HeadLength(len: nat, n: int): (k: nat)
    ensures k <= len
    ensures n >= 0 ==> k <= n && (k < n ==> k == len)
    ensures n < 0 ==> k + (-n) >= len && (k > 0 ==> k + (-n) == len)
  {
    if n >= 0 then (if n < len then n else len)
    else if len + n > 0 then len + n
    else 0
  }

  /** `head(n)`. */
  function Head(s: seq<Candidate>, n: int): seq<Candidate>
  {
    s[..HeadLength(|s|, n)]
  }

  /**
   * Sort, drop the queried product, keep the first `n`: entries of the column
   * other than the queried product, in descending order, at most `n` of them,
   * and with equal scores in ascending id order when the column is labelled
   * by ascending ids.
   */
  function Select(col: seq<Candidate>, id: int, n: int): (r: seq<Candidate>)
    ensures forall c :: c in r ==> c in col && c.id != id
    ensures SortedDesc(r)
    ensures n >= 0 ==> |r| <= n
    ensures IdsAscending(col) ==> TiesInIdOrder(r)
  {
    var sorted := SortDesc(col);
    SelectionFromColumn(col, sorted, id, n);
    SelectionSorted(sorted, id, n);
    SelectionTies(col, id, n);
    Head(DropId(sorted, id), n)
  }

  lemma {:induction false} DropIdSorted(s: seq<Candidate>, id: int)
    requires SortedDesc(s)
    ensures SortedDesc(DropId(s, id))
  {
    if s != [] {
      DropIdSorted(s[1..], id);
      DropIdMembers(s[1..], id);
      var rest := DropId(s[1..], id);
      forall x | x in rest
        ensures Value(x) <= Value(s[0])
      {
        var k :| 0 <= k < |s[1..]| && s[1..][k] == x;
        assert s[k + 1] == x;
      }
    }
  }

  lemma {:induction false} DropIdAbsent(s: seq<Candidate>, id: int)
    requires forall k :: 0 <= k < |s| ==> s[k].id != id
    ensures DropId(s, id) == s
  {
    if s != [] {
      DropIdAbsent(s[1..], id);
      assert s == [s[0]] + s[1..];
    }
  }

  /** With distinct ids, dropping a present id removes exactly one entry. */
  lemma {:induction false} DropIdUnique(s: seq<Candidate>, id: int, at: int)
    requires DistinctIds(s) && 0 <= at < |s| && s[at].id == id
    ensures |DropId(s, id)| == |s| - 1
  {
    if at == 0 {
      DropIdAbsent(s[1..], id);
    } else {
      DropIdUnique(s[1..], id, at - 1);
    }
  }

  /** Equal multisets stay equal after dropping the same id. */
  lemma DropIdPermutation(a: seq<Candidate>, b: seq<Candidate>, id: int)
    requires multiset(a) == multiset(b)
    ensures multiset(DropId(a, id)) == multiset(DropId(b, id))
  {
    forall x
      ensures multiset(DropId(a, id))[x] == multiset(DropId(b, id))[x]
    {
    }
  }

  /** Every selected entry comes from the column and is not the queried product. */
  lemma SelectionFromColumn(col: seq<Candidate>, r: seq<Candidate>, id: int, n: int)
    requires multiset(r) == multiset(col)
    ensures forall c :: c in Head(DropId(r, id), n) ==> c in col && c.id != id
  {
    DropIdMembers(r, id);
    forall c | c in Head(DropId(r, id), n)
      ensures c in col && c.id != id
    {
      assert c in DropId(r, id);
      assert c in multiset(r);
    }
  }

  /** The selection keeps the descending order. */
  lemma SelectionSorted(r: seq<Candidate>, id: int, n: int)
    requires SortedDesc(r)
    ensures SortedDesc(Head(DropId(r, id), n))
  {
    DropIdSorted(r, id);
  }

  /** An other column entry left out of the selection scores no higher than every selected entry. */
  lemma SelectionIsTopFor(col: seq<Candidate>, r: seq<Candidate>, id: int, n: int, c: Candidate)
    requires IsRanking(col, r)
    requires c in col && c.id != id && c !in Head(DropId(r, id), n)
    ensures forall d :: d in Head(DropId(r, id), n) ==> Value(c) <= Value(d)
  {
    var dropped := DropId(r, id);
    var sel := Head(dropped, n);
    DropIdMembers(r, id);
    DropIdSorted(r, id);
    assert c in multiset(col);
    assert c in r;
    var i :| 0 <= i < |dropped| && dropped[i] == c;
    forall d | d in sel
      ensures Value(c) <= Value(d)
    {
      var t :| 0 <= t < |sel| && sel[t] == d;
      assert dropped[t] == d;
    }
  }

  /** Any other column entry left out of the selection scores no higher than every selected entry. */
  lemma SelectionIsTop(col: seq<Candidate>, r: seq<Candidate>, id: int, n: int)
    requires IsRanking(col, r)
    ensures var sel := Head(DropId(r, id), n);
      forall c, d :: c in col && c.id != id && c !in sel && d in sel ==> Value(c) <= Value(d)
  {
    forall c | c in col && c.id != id && c !in Head(DropId(r, id), n)
      ensures forall d :: d in Head(DropId(r, id), n) ==> Value(c) <= Value(d)
    {
      SelectionIsTopFor(col, r, id, n, c);
    }
  }

  /** With distinct ids and the queried id present, exactly `head(n)` of the other `|col| - 1` entries remain. */
  lemma SelectionLength(col: seq<Candidate>, r: seq<Candidate>, id: int, n: int, at: int)
    requires IsRanking(col, r)
    requires DistinctIds(col) && 0 <= at < |col| && col[at].id == id
    ensures |Head(DropId(r, id), n)| == HeadLength(|col| - 1, n)
  {
    DropIdPermutation(r, col, id);
    DropIdUnique(col, id, at);
    assert |DropId(r, id)| == |multiset(DropId(r, id))| == |multiset(DropId(col, id))|;
  }

  lemma TiesCons(x: Candidate, s: seq<Candidate>)
    requires TiesInIdOrder(s)
    requires forall y :: y in s && Value(y) == Value(x) ==> x.id < y.id
    ensures TiesInIdOrder([x] + s)
  {
    forall i, j | 0 <= i < j < |[x] + s| && Value(([x] + s)[i]) == Value(([x] + s)[j])
      ensures ([x] + s)[i].id < ([x] + s)[j].id
    {
      assert ([x] + s)[j] == s[j - 1];
      if i > 0 {
        assert ([x] + s)[i] == s[i - 1];
      }
    }
  }

  /** Inserting an entry whose id exceeds every id present places it after the entries it ties with. */
  lemma {:induction false} InsertDescTies(sorted: seq<Candidate>, c: Candidate)
    requires SortedDesc(sorted) && TiesInIdOrder(sorted)
    requires forall d :: d in sorted ==> d.id < c.id
    ensures TiesInIdOrder(InsertDesc(sorted, c))
  {
    if sorted == [] {
    } else if Value(sorted[0]) < Value(c) {
      SortedHeadIsMax(sorted);
      TiesCons(c, sorted);
    } else {
      var rest := InsertDesc(sorted[1..], c);
      InsertDescTies(sorted[1..], c);
      forall y | y in rest && Value(y) == Value(sorted[0])
        ensures sorted[0].id < y.id
      {
        assert y in multiset(rest);
        if y != c {
          assert y in multiset(sorted[1..]);
          var k :| 0 <= k < |sorted[1..]| && sorted[1..][k] == y;
          assert sorted[k + 1] == y;
        }
      }
      TiesCons(sorted[0], rest);
    }
  }

  /** Sorting a column labelled by ascending ids leaves equal scores in ascending id order. */
  lemma {:induction false} SortDescTies(col: seq<Candidate>)
    requires IdsAscending(col)
    ensures TiesInIdOrder(SortDesc(col))
  {
    if col != [] {
      var init, last := col[..|col| - 1], col[|col| - 1];
      assert col == init + [last];
      SortDescTies(init);
      forall d | d in SortDesc(init)
        ensures d.id < last.id
      {
        assert d in multiset(SortDesc(init));
        assert d in init;
        var t :| 0 <= t < |init| && init[t] == d;
        assert col[t] == d;
      }
      InsertDescTies(SortDesc(init), last);
    }
  }

  lemma {:induction false} DropIdTies(s: seq<Candidate>, id: int)
    requires TiesInIdOrder(s)
    ensures TiesInIdOrder(DropId(s, id))
  {
    if s != [] {
      DropIdTies(s[1..], id);
      DropIdMembers(s[1..], id);
      var rest := DropId(s[1..], id);
      forall x | x in rest && Value(x) == Value(s[0])
        ensures s[0].id < x.id
      {
        var k :| 0 <= k < |s[1..]| && s[1..][k] == x;
        assert s[k + 1] == x;
      }
      if s[0].id != id {
        TiesCons(s[0], rest);
      }
    }
  }

  /** For a column labelled by ascending ids, the selection lists equal scores in ascending id order. */
  lemma SelectionTies(col: seq<Candidate>, id: int, n: int)
    ensures IdsAscending(col) ==> TiesInIdOrder(Head(DropId(SortDesc(col), id), n))
  {
    if IdsAscending(col) {
      SortDescTies(col);
      DropIdTies(SortDesc(col), id);
    }
  }
}
