/**
 * The scorer. `getScore(user, item)` concatenates the stored index lists of the user and
 * the item, fetches `factors[name][index - 1]` for every declared column in order, folds
 * those latent rows with element-wise products (the first row seeds the accumulator) and
 * sums the result. Entries are exact reals: floating-point rounding is not modelled.
 */
module Scoring {
  import opened Outcomes

  /** Why `getScore` raises. */
  datatype ScoreError =
    | UnknownUser                                // KeyError on user_features
    | UnknownItem                                // KeyError on item_features
    | MissingFactor(column: string)              // KeyError on factors
    | IndexListTooShort                          // IndexError on the concatenated index list
    | RowOutOfRange(column: string, index: int)  // IndexError on a factor matrix
    | ShapeMismatch(column: string)              // np.multiply cannot broadcast the operands
    | NoColumns                                  // no column declared: `ret` is never bound

  /** One factor matrix per feature column, as a list of latent rows. */
  type Factors = map<string, seq<seq<real>>>

  /** NumPy row selection `M[j]`: a negative j counts from the end, anything else out of range raises. */
  function RowAt(M: seq<seq<real>>, j: int): (r: Option<seq<real>>)
    ensures r.Some? <==> -|M| <= j < |M|
    ensures r.Some? ==> r.value in M
  {
    if 0 <= j < |M| then Some(M[j])
    else if -|M| <= j < 0 then Some(M[|M| + j])
    else None
  }

  /** `np.multiply(a, b)` on 1-D operands: equal lengths, or one operand of length 1 broadcast. */
  function Multiply(a: seq<real>, b: seq<real>): (r: Option<seq<real>>)
    ensures r.Some? <==> |a| == |b| || |a| == 1 || |b| == 1
    ensures r.Some? ==> |r.value| == if |a| == 1 then |b| else |a|
  {
    if |a| == |b| then Some(seq(|a|, k requires 0 <= k < |a| => a[k] * b[k]))
    else if |a| == 1 then Some(seq(|b|, k requires 0 <= k < |b| => a[0] * b[k]))
    else if |b| == 1 then Some(seq(|a|, k requires 0 <= k < |a| => a[k] * b[0]))
    else None
  }

  /** Python's `sum(v)`: 0 + v[0] + v[1] + ... */
  function Sum(v: seq<real>): real
    decreases |v|
  {
    if v == [] then 0.0 else Sum(v[..|v| - 1]) + v[|v| - 1]
  }

  /** Summing a concatenation sums the two parts. */
  lemma {:induction false} SumConcat(a: seq<real>, b: seq<real>)
    ensures Sum(a + b) == Sum(a) + Sum(b)
    decreases |b|
  {
    if b == [] {
      assert a + b == a;
    } else {
      var n := |b| - 1;
      assert (a + b)[..|a + b| - 1] == a + b[..n];
      assert (a + b)[|a + b| - 1] == b[n];
      SumConcat(a, b[..n]);
    }
  }

  /** The accumulator `ret` after the first n loop iterations; None while it is still unbound. */
  function Accumulate(factors: Factors, names: seq<string>, indexes: seq<int>, n: nat): (r: Result<Option<seq<real>>, ScoreError>)
    requires n <= |names|
    ensures r.Ok? ==> n <= |indexes| && (r.value.None? <==> n == 0)
    decreases n
  {
    if n == 0 then Ok(None)
    else
      match Accumulate(factors, names, indexes, n - 1)
      case Err(e) => Err(e)
      case Ok(ret) =>
        var name := names[n - 1];
        if name !in factors then Err(MissingFactor(name))
        else if n - 1 >= |indexes| then Err(IndexListTooShort)
        else
          match RowAt(factors[name], indexes[n - 1] - 1)
          case None => Err(RowOutOfRange(name, indexes[n - 1]))
          case Some(row) =>
            match ret
            case None => Ok(Some(row))
            case Some(acc) =>
              match Multiply(acc, row)
              case None => Err(ShapeMismatch(name))
              case Some(p) => Ok(Some(p))
  }

  /** The first exception ends the loop: once an error is raised it is what the scorer raises. */
  lemma {:induction false} AccumulateStopsAt(factors: Factors, names: seq<string>, indexes: seq<int>, k: nat, n: nat)
    requires k <= n <= |names| && Accumulate(factors, names, indexes, k).Err?
    ensures Accumulate(factors, names, indexes, n) == Accumulate(factors, names, indexes, k)
    decreases n
  {
    if k < n {
      AccumulateStopsAt(factors, names, indexes, k, n - 1);
    }
  }

  /** What `getScore` returns or raises for a model state and a (user, item) pair. */
  function Score<V>(factors: Factors, userFeatures: map<V, seq<int>>, itemFeatures: map<V, seq<int>>,
                    names: seq<string>, user: V, item: V): (r: Result<real, ScoreError>)
    ensures r.Ok? ==> user in userFeatures && item in itemFeatures && 0 < |names|
    ensures r.Ok? ==> |names| <= |userFeatures[user] + itemFeatures[item]|
  {
    if user !in userFeatures then Err(UnknownUser)
    else if item !in itemFeatures then Err(UnknownItem)
    else
      match Accumulate(factors, names, userFeatures[user] + itemFeatures[item], |names|)
      case Err(e) => Err(e)
      case Ok(None) => Err(NoColumns)
      case Ok(Some(v)) => Ok(Sum(v))
  }

  // ---------------------------------------------------------------------------
  // The multilinear prediction rule, stated independently

  /** Every column's factor matrix is present, every index is a 1-based row of it, every row has length d. */
  ghost predicate Resolved(factors: Factors, names: seq<string>, indexes: seq<int>, d: nat) {
    && |indexes| >= |names|
    && forall n :: 0 <= n < |names| ==>
         && names[n] in factors
         && 1 <= indexes[n] <= |factors[names[n]]|
         && |factors[names[n]][indexes[n] - 1]| == d
  }

  /** Index lists resolved against two groups of columns resolve against the two groups in sequence. */
  lemma ResolvedConcat(factors: Factors, a: seq<string>, b: seq<string>, x: seq<int>, y: seq<int>, d: nat)
    requires |x| == |a| && Resolved(factors, a, x, d) && Resolved(factors, b, y, d)
    ensures Resolved(factors, a + b, x + y, d)
  {
    forall n | 0 <= n < |a + b|
      ensures (a + b)[n] in factors && 1 <= (x + y)[n] <= |factors[(a + b)[n]]|
      ensures |factors[(a + b)[n]][(x + y)[n] - 1]| == d
    {
      if n >= |a| {
        assert (a + b)[n] == b[n - |a|] && (x + y)[n] == y[n - |a|];
      }
    }
  }

  /** The latent rows the scorer combines. */
  function Gathered(factors: Factors, names: seq<string>, indexes: seq<int>, d: nat): seq<seq<real>>
    requires Resolved(factors, names, indexes, d)
  {
    seq(|names|, n requires 0 <= n < |names| => factors[names[n]][indexes[n] - 1])
  }

  /** The product over the first n rows of component k. */
  function ColumnProduct(vs: seq<seq<real>>, k: nat, n: nat): real
    requires n <= |vs| && forall j :: 0 <= j < n ==> k < |vs[j]|
    decreases n
  {
    if n == 0 then 1.0 else ColumnProduct(vs, k, n - 1) * vs[n - 1][k]
  }

  /** Sum over the first K components of the product over all rows. */
  function SumOfProducts(vs: seq<seq<real>>, K: nat): real
    requires forall j :: 0 <= j < |vs| ==> K <= |vs[j]|
    decreases K
  {
    if K == 0 then 0.0 else SumOfProducts(vs, K - 1) + ColumnProduct(vs, K - 1, |vs|)
  }

  lemma {:induction false} AccumulateIsProduct(factors: Factors, names: seq<string>, indexes: seq<int>, d: nat, n: nat)
    requires Resolved(factors, names, indexes, d) && 1 <= n <= |names|
    ensures Accumulate(factors, names, indexes, n) ==
              Ok(Some(seq(d, k requires 0 <= k < d => ColumnProduct(Gathered(factors, names, indexes, d), k, n))))
    decreases n
  {
    var vs := Gathered(factors, names, indexes, d);
    var row := factors[names[n - 1]][indexes[n - 1] - 1];
    assert RowAt(factors[names[n - 1]], indexes[n - 1] - 1) == Some(row);
    assert vs[n - 1] == row;
    var next := seq(d, k requires 0 <= k < d => ColumnProduct(vs, k, n));
    if n == 1 {
      assert Accumulate(factors, names, indexes, 1) == Ok(Some(row));
      forall k | 0 <= k < d
        ensures next[k] == row[k]
      {
        assert ColumnProduct(vs, k, 0) == 1.0;
      }
      assert next == row;
    } else {
      AccumulateIsProduct(factors, names, indexes, d, n - 1);
      var acc := seq(d, k requires 0 <= k < d => ColumnProduct(vs, k, n - 1));
      var p := seq(d, k requires 0 <= k < d => acc[k] * row[k]);
      assert |acc| == |row|;
      assert Multiply(acc, row) == Some(p);
      forall k | 0 <= k < d
        ensures p[k] == next[k]
      {
        assert next[k] == ColumnProduct(vs, k, n - 1) * vs[n - 1][k];
      }
      assert p == next;
    }
  }

  lemma {:induction false} SumIsSumOfProducts(vs: seq<seq<real>>, w: seq<real>)
    requires forall j :: 0 <= j < |vs| ==> |w| <= |vs[j]|
    requires forall k :: 0 <= k < |w| ==> w[k] == ColumnProduct(vs, k, |vs|)
    ensures Sum(w) == SumOfProducts(vs, |w|)
    decreases |w|
  {
    if w != [] {
      SumIsSumOfProducts(vs, w[..|w| - 1]);
    }
  }

  /**
   * When every lookup succeeds and all latent rows have length d, the score is
   * the sum over k < d of the product over the declared columns n of
   * factors[names[n]][indexes[n] - 1][k].
   */
  lemma ScoreIsSumOfProducts<V>(factors: Factors, userFeatures: map<V, seq<int>>, itemFeatures: map<V, seq<int>>,
                                names: seq<string>, user: V, item: V, d: nat)
    requires user in userFeatures && item in itemFeatures && |names| > 0
    requires Resolved(factors, names, userFeatures[user] + itemFeatures[item], d)
    ensures Score(factors, userFeatures, itemFeatures, names, user, item) ==
              Ok(SumOfProducts(Gathered(factors, names, userFeatures[user] + itemFeatures[item], d), d))
  {
    var indexes := userFeatures[user] + itemFeatures[item];
    var vs := Gathered(factors, names, indexes, d);
    AccumulateIsProduct(factors, names, indexes, d, |names|);
    SumIsSumOfProducts(vs, seq(d, k requires 0 <= k < d => ColumnProduct(vs, k, |names|)));
  }

  // ---------------------------------------------------------------------------
  // The order of the declared columns does not change the score

  /** The product of a sequence of reals. */
  function Product(xs: seq<real>): real
    decreases |xs|
  {
    if xs == [] then 1.0 else Product(xs[..|xs| - 1]) * xs[|xs| - 1]
  }

  /** `f` applied to every element, in order. */
  function MapSeq<T, U>(f: T -> U, s: seq<T>): (r: seq<U>)
    ensures |r| == |s| && forall j :: 0 <= j < |s| ==> r[j] == f(s[j])
  {
    seq(|s|, j requires 0 <= j < |s| => f(s[j]))
  }

  lemma MultisetDropAt<T>(s: seq<T>, i: nat)
    requires i < |s|
    ensures multiset(s) == multiset(s[..i] + s[i + 1..]) + multiset{s[i]}
  {
    assert s == s[..i] + [s[i]] + s[i + 1..];
  }

  /** Taking the last element off one side and a copy of it off the other keeps the multisets equal. */
  lemma RemoveMatching<T>(vs: seq<T>, ws: seq<T>, i: nat)
    requires multiset(vs) == multiset(ws) && vs != [] && i < |ws| && ws[i] == vs[|vs| - 1]
    ensures multiset(vs[..|vs| - 1]) == multiset(ws[..i] + ws[i + 1..])
  {
    var n := |vs| - 1;
    MultisetDropAt(vs, n);
    MultisetDropAt(ws, i);
    assert vs[..n] + vs[n + 1..] == vs[..n];
    var a, b, x := multiset(vs[..n]), multiset(ws[..i] + ws[i + 1..]), multiset{vs[n]};
    assert a == (a + x) - x && b == (b + x) - x;
  }

  /** Dropping element i before or after mapping drops the same image. */
  lemma MapSeqDropAt<T, U>(f: T -> U, s: seq<T>, i: nat)
    requires i < |s|
    ensures multiset(MapSeq(f, s)) == multiset(MapSeq(f, s[..i] + s[i + 1..])) + multiset{f(s[i])}
  {
    var image := MapSeq(f, s);
    assert MapSeq(f, s[..i] + s[i + 1..]) == image[..i] + image[i + 1..];
    MultisetDropAt(image, i);
  }

  /** Mapping reorderings of a sequence gives reorderings of the image. */
  lemma {:induction false} MapSeqPerm<T, U>(f: T -> U, a: seq<T>, b: seq<T>)
    requires multiset(a) == multiset(b)
    ensures multiset(MapSeq(f, a)) == multiset(MapSeq(f, b))
    decreases |a|
  {
    if a == [] {
      assert |b| == |multiset(b)| == 0;
    } else {
      var n := |a| - 1;
      var x := a[n];
      assert x in multiset(b) by {
        assert a == a[..n] + [x];
        assert x in multiset(a);
      }
      var i :| 0 <= i < |b| && b[i] == x;
      RemoveMatching(a, b, i);
      MapSeqPerm(f, a[..n], b[..i] + b[i + 1..]);
      MapSeqDropAt(f, a, n);
      assert a[..n] + a[n + 1..] == a[..n];
      MapSeqDropAt(f, b, i);
    }
  }

  lemma MulAssoc(a: real, b: real, c: real)
    ensures (a * b) * c == a * (b * c)
  {
  }

  lemma MulSwap(a: real, b: real, c: real)
    ensures (a * b) * c == (a * c) * b
  {
  }

  /** The product of a concatenation is the product of the two parts. */
  lemma {:induction false} ProductConcat(xs: seq<real>, ys: seq<real>)
    ensures Product(xs + ys) == Product(xs) * Product(ys)
    decreases |ys|
  {
    if ys == [] {
      assert xs + ys == xs;
    } else {
      var n := |ys| - 1;
      assert (xs + ys)[..|xs + ys| - 1] == xs + ys[..n];
      assert (xs + ys)[|xs + ys| - 1] == ys[n];
      ProductConcat(xs, ys[..n]);
      MulAssoc(Product(xs), Product(ys[..n]), ys[n]);
    }
  }

  /** A factor in the middle can be taken out of the product. */
  lemma {:induction false} ProductSplitAt(before: seq<real>, x: real, after: seq<real>)
    ensures Product(before + [x] + after) == Product(before + after) * x
  {
    assert (before + [x])[..|before|] == before;
    ProductConcat(before + [x], after);
    ProductConcat(before, after);
    MulSwap(Product(before), x, Product(after));
  }

  /** Taking element i out divides it out of the product. */
  lemma {:induction false} ProductRemove(ys: seq<real>, i: nat)
    requires i < |ys|
    ensures Product(ys) == Product(ys[..i] + ys[i + 1..]) * ys[i]
  {
    var before, after := ys[..i], ys[i + 1..];
    ProductSplitAt(before, ys[i], after);
    assert before + [ys[i]] + after == ys;
  }

  /** Reordering the factors leaves the product unchanged. */
  lemma {:induction false} ProductPerm(xs: seq<real>, ys: seq<real>)
    requires multiset(xs) == multiset(ys)
    ensures Product(xs) == Product(ys)
    decreases |xs|
  {
    if xs == [] {
      assert |ys| == |multiset(ys)| == 0;
    } else {
      var n := |xs| - 1;
      var x := xs[n];
      assert x in multiset(ys) by {
        assert xs == xs[..n] + [x];
        assert x in multiset(xs);
      }
      var i :| 0 <= i < |ys| && ys[i] == x;
      RemoveMatching(xs, ys, i);
      ProductPerm(xs[..n], ys[..i] + ys[i + 1..]);
      ProductRemove(ys, i);
    }
  }

  /** Component k of a latent row, as a total function. */
  function Entry(k: nat): seq<real> -> real {
    (v: seq<real>) => if k < |v| then v[k] else 1.0
  }

  /** The product over the first n rows of component k is the product of that component's entries. */
  lemma {:induction false} ColumnProductIsProduct(vs: seq<seq<real>>, k: nat, n: nat)
    requires n <= |vs| && forall j :: 0 <= j < n ==> k < |vs[j]|
    ensures ColumnProduct(vs, k, n) == Product(MapSeq(Entry(k), vs[..n]))
    decreases n
  {
    if n > 0 {
      ColumnProductIsProduct(vs, k, n - 1);
      var col := MapSeq(Entry(k), vs[..n]);
      assert col[..n - 1] == MapSeq(Entry(k), vs[..n - 1]);
      assert col[n - 1] == vs[n - 1][k];
    }
  }

  /** Reordering the rows leaves the product of every component unchanged. */
  lemma ColumnProductPerm(vs: seq<seq<real>>, ws: seq<seq<real>>, k: nat)
    requires multiset(vs) == multiset(ws)
    requires forall j :: 0 <= j < |vs| ==> k < |vs[j]|
    requires forall j :: 0 <= j < |ws| ==> k < |ws[j]|
    ensures ColumnProduct(vs, k, |vs|) == ColumnProduct(ws, k, |ws|)
  {
    ColumnProductIsProduct(vs, k, |vs|);
    ColumnProductIsProduct(ws, k, |ws|);
    assert vs[..|vs|] == vs && ws[..|ws|] == ws;
    MapSeqPerm(Entry(k), vs, ws);
    ProductPerm(MapSeq(Entry(k), vs), MapSeq(Entry(k), ws));
  }

  /** Reordering the rows leaves the sum of products unchanged. */
  lemma {:induction false} SumOfProductsPerm(vs: seq<seq<real>>, ws: seq<seq<real>>, K: nat)
    requires multiset(vs) == multiset(ws)
    requires forall j :: 0 <= j < |vs| ==> K <= |vs[j]|
    requires forall j :: 0 <= j < |ws| ==> K <= |ws[j]|
    ensures SumOfProducts(vs, K) == SumOfProducts(ws, K)
    decreases K
  {
    if K > 0 {
      SumOfProductsPerm(vs, ws, K - 1);
      ColumnProductPerm(vs, ws, K - 1);
    }
  }

  /** The (column, index) pairs the scorer looks up, in loop order. */
  function Lookups(names: seq<string>, indexes: seq<int>): seq<(string, int)>
    requires |indexes| >= |names|
  {
    seq(|names|, n requires 0 <= n < |names| => (names[n], indexes[n]))
  }

  /** The latent row one lookup selects, or [] when it does not resolve. */
  function Fetch(factors: Factors): ((string, int)) -> seq<real> {
    (p: (string, int)) => if p.0 in factors && 1 <= p.1 <= |factors[p.0]| then factors[p.0][p.1 - 1] else []
  }

  /** Under resolved lookups the gathered rows are the fetched rows. */
  lemma GatheredFetched(factors: Factors, names: seq<string>, indexes: seq<int>, d: nat)
    requires Resolved(factors, names, indexes, d)
    ensures Gathered(factors, names, indexes, d) == MapSeq(Fetch(factors), Lookups(names, indexes))
  {
  }

  /**
   * Declaring the columns in another order, with each user's and item's index lists
   * reordered to match, gives the same score: the element-wise product commutes.
   */
  lemma ScoreColumnOrder<V>(factors: Factors, userFeatures: map<V, seq<int>>, itemFeatures: map<V, seq<int>>,
                            names: seq<string>, userFeatures': map<V, seq<int>>, itemFeatures': map<V, seq<int>>,
                            names': seq<string>, user: V, item: V, d: nat)
    requires user in userFeatures && item in itemFeatures && user in userFeatures' && item in itemFeatures'
    requires |names| > 0
    requires Resolved(factors, names, userFeatures[user] + itemFeatures[item], d)
    requires Resolved(factors, names', userFeatures'[user] + itemFeatures'[item], d)
    requires multiset(Lookups(names, userFeatures[user] + itemFeatures[item])) ==
             multiset(Lookups(names', userFeatures'[user] + itemFeatures'[item]))
    ensures Score(factors, userFeatures', itemFeatures', names', user, item) ==
            Score(factors, userFeatures, itemFeatures, names, user, item)
  {
    var indexes, indexes' := userFeatures[user] + itemFeatures[item], userFeatures'[user] + itemFeatures'[item];
    assert |names'| == |multiset(Lookups(names', indexes'))| == |multiset(Lookups(names, indexes))| == |names|;
    var vs, ws := Gathered(factors, names, indexes, d), Gathered(factors, names', indexes', d);
    GatheredFetched(factors, names, indexes, d);
    GatheredFetched(factors, names', indexes', d);
    MapSeqPerm(Fetch(factors), Lookups(names, indexes), Lookups(names', indexes'));
    SumOfProductsPerm(vs, ws, d);
    ScoreIsSumOfProducts(factors, userFeatures, itemFeatures, names, user, item, d);
    ScoreIsSumOfProducts(factors, userFeatures', itemFeatures', names', user, item, d);
  }

  /** Python's dot product of two equally long vectors. */
  function Dot(a: seq<real>, b: seq<real>): real
    requires |a| == |b|
    decreases |a|
  {
    if a == [] then 0.0 else Dot(a[..|a| - 1], b[..|b| - 1]) + a[|a| - 1] * b[|b| - 1]
  }

  lemma {:induction false} SumOfProductsTwo(vs: seq<seq<real>>, K: nat)
    requires |vs| == 2 && |vs[0]| == |vs[1]| && K <= |vs[0]|
    ensures SumOfProducts(vs, K) == Dot(vs[0][..K], vs[1][..K])
    decreases K
  {
    if K > 0 {
      SumOfProductsTwo(vs, K - 1);
      assert vs[0][..K][..K - 1] == vs[0][..K - 1];
      assert vs[1][..K][..K - 1] == vs[1][..K - 1];
    }
  }

  /** With one user column and one item column the score is the dot product of the two latent rows. */
  lemma ScoreIsDotProduct<V>(factors: Factors, userFeatures: map<V, seq<int>>, itemFeatures: map<V, seq<int>>,
                             userColumn: string, itemColumn: string, user: V, item: V, d: nat)
    requires user in userFeatures && item in itemFeatures
    requires Resolved(factors, [userColumn, itemColumn], userFeatures[user] + itemFeatures[item], d)
    ensures var rows := Gathered(factors, [userColumn, itemColumn], userFeatures[user] + itemFeatures[item], d);
            Score(factors, userFeatures, itemFeatures, [userColumn, itemColumn], user, item) == Ok(Dot(rows[0], rows[1]))
  {
    var names := [userColumn, itemColumn];
    var indexes := userFeatures[user] + itemFeatures[item];
    ScoreIsSumOfProducts(factors, userFeatures, itemFeatures, names, user, item, d);
    var vs := Gathered(factors, names, indexes, d);
    SumOfProductsTwo(vs, d);
    assert vs[0][..d] == vs[0] && vs[1][..d] == vs[1];
  }

  /** A user or item absent from the entity lists is a lookup miss, never a default score. */
  lemma ScoreLookupMiss<V>(factors: Factors, userFeatures: map<V, seq<int>>, itemFeatures: map<V, seq<int>>,
                           names: seq<string>, user: V, item: V)
    ensures user !in userFeatures ==> Score(factors, userFeatures, itemFeatures, names, user, item) == Err(UnknownUser)
    ensures user in userFeatures && item !in itemFeatures ==>
              Score(factors, userFeatures, itemFeatures, names, user, item) == Err(UnknownItem)
    ensures Score(factors, userFeatures, itemFeatures, names, user, item).Ok? ==>
              user in userFeatures && item in itemFeatures && |names| > 0
  {
  }

  /** User row [1, 2] against item row [3, 0.5] scores 1 * 3 + 2 * 0.5 = 4. */
  lemma ScoreExample()
    ensures Score(map["user" := [[1.0, 2.0]], "item" := [[0.0, 0.0], [3.0, 0.5]]],
                  map[1 := [1]], map[2 := [2]], ["user", "item"], 1, 2) == Ok(4.0)
  {
    var factors := map["user" := [[1.0, 2.0]], "item" := [[0.0, 0.0], [3.0, 0.5]]];
    var users := map[1 := [1]];
    var items := map[2 := [2]];
    assert users[1] + items[2] == [1, 2];
    ScoreIsDotProduct(factors, users, items, "user", "item", 1, 2, 2);
    assert [1.0, 2.0][..1] == [1.0];
    assert [3.0, 0.5][..1] == [3.0];
  }
}
