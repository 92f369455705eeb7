/**
 * The TensorCoFi model object and its file-based variant.
 *
 * The object holds the hyper-parameters, the declared user-side and item-side column
 * names, the per-entity index lists, the per-column dictionaries and the factor matrices.
 * Fitting encodes the data, hands it to an external trainer and stores what comes back;
 * the trainer's result is a parameter of the fitting methods.
 */
module TensorCoFiModel {
  import opened Outcomes
  import opened Encoding
  import opened Layout
  import opened Scoring
  import opened EngineOutput

  /** The trainer handed back one well-shaped buffer for each of the first n feature columns. */
  ghost predicate EngineReturned(mats: seq<FlatMatrix>, n: nat) {
    n <= |mats| && forall i :: 0 <= i < n ==> ValidBuffer(mats[i])
  }

  /** `self.factors` after the loop of `_fit`: column `names[i]` gets the transposed i-th matrix, later columns win. */
  function AssembleFactors(names: seq<string>, mats: seq<FlatMatrix>): (r: Factors)
    requires EngineReturned(mats, |names|)
    ensures |r| <= |names|
    decreases |names|
  {
    if names == [] then map[]
    else
      var n := |names| - 1;
      AssembleFactors(names[..n], mats)[names[n] := FactorRows(mats[n])]
  }

  lemma {:induction false} AssembleFactorsKeys(names: seq<string>, mats: seq<FlatMatrix>)
    requires EngineReturned(mats, |names|)
    ensures AssembleFactors(names, mats).Keys == Elements(names)
    decreases |names|
  {
    if names != [] {
      var n := |names| - 1;
      AssembleFactorsKeys(names[..n], mats);
      assert names == names[..n] + [names[n]];
      assert Elements(names) == Elements(names[..n]) + {names[n]};
    }
  }

  lemma {:induction false} AssembleFactorsLast(names: seq<string>, mats: seq<FlatMatrix>, k: nat)
    requires EngineReturned(mats, |names|)
    requires k < |names| && forall j :: k < j < |names| ==> names[j] != names[k]
    ensures names[k] in AssembleFactors(names, mats)
    ensures AssembleFactors(names, mats)[names[k]] == FactorRows(mats[k])
    decreases |names|
  {
    var n := |names| - 1;
    if k < n {
      assert names[..n][k] == names[k];
      AssembleFactorsLast(names[..n], mats, k);
    }
  }

  /**
   * The stored factors: one entry per declared column, holding the transpose of the buffer
   * of that column's last position, whose row j is the buffer slice [j * rows, (j + 1) * rows).
   */
  lemma AssembledFactorRows(names: seq<string>, mats: seq<FlatMatrix>, k: nat)
    requires EngineReturned(mats, |names|)
    requires k < |names| && forall j :: k < j < |names| ==> names[j] != names[k]
    ensures AssembleFactors(names, mats).Keys == Elements(names)
    ensures AssembleFactors(names, mats)[names[k]] == Chunks(mats[k].data, mats[k].rows)
    ensures |AssembleFactors(names, mats)[names[k]]| == mats[k].columns
    ensures forall j :: 0 <= j < mats[k].columns ==>
              |AssembleFactors(names, mats)[names[k]][j]| == mats[k].rows
  {
    AssembleFactorsKeys(names, mats);
    AssembleFactorsLast(names, mats, k);
    FactorRowsAreChunks(mats[k]);
  }

  /** `dict(zip(features, zip(*mc)))`: column k of the rows under `features[k]`, later names win; no rows, no columns. */
  function FrameOf(mc: seq<seq<int>>, features: seq<string>): (frame: map<string, seq<int>>)
    requires forall r :: 0 <= r < |mc| ==> |mc[r]| == |features|
    ensures forall c :: c in frame ==> c in features && |frame[c]| == |mc|
    decreases |features|
  {
    if mc == [] || features == [] then map[]
    else
      var n := |features| - 1;
      FrameOf(seq(|mc|, r requires 0 <= r < |mc| => mc[r][..n]), features[..n])
        [features[n] := seq(|mc|, r requires 0 <= r < |mc| => mc[r][n])]
  }

  lemma {:induction false} FrameOfColumns(mc: seq<seq<int>>, features: seq<string>, k: nat)
    requires forall r :: 0 <= r < |mc| ==> |mc[r]| == |features|
    requires |mc| > 0 && k < |features| && forall j :: k < j < |features| ==> features[j] != features[k]
    ensures features[k] in FrameOf(mc, features)
    ensures FrameOf(mc, features)[features[k]] == seq(|mc|, r requires 0 <= r < |mc| => mc[r][k])
    decreases |features|
  {
    var n := |features| - 1;
    if k < n {
      var pre := seq(|mc|, r requires 0 <= r < |mc| => mc[r][..n]);
      assert features[..n][k] == features[k];
      FrameOfColumns(pre, features[..n], k);
      assert seq(|pre|, r requires 0 <= r < |pre| => pre[r][k]) == seq(|mc|, r requires 0 <= r < |mc| => mc[r][k]);
    }
  }

  lemma {:induction false} FrameOfKeys(mc: seq<seq<int>>, features: seq<string>)
    requires forall r :: 0 <= r < |mc| ==> |mc[r]| == |features|
    ensures FrameOf(mc, features).Keys == if mc == [] then {} else Elements(features)
    decreases |features|
  {
    if mc != [] && features != [] {
      var n := |features| - 1;
      FrameOfKeys(seq(|mc|, r requires 0 <= r < |mc| => mc[r][..n]), features[..n]);
      assert features == features[..n] + [features[n]];
      assert Elements(features) == Elements(features[..n]) + {features[n]};
    }
  }

  /** `features` has its last occurrence of `c` at position k. */
  ghost predicate LastAt(features: seq<string>, c: string, k: int) {
    0 <= k < |features| && features[k] == c && forall j :: k < j < |features| ==> features[j] != c
  }

  lemma LastOccurrence(features: seq<string>, c: string) returns (k: nat)
    requires c in features
    ensures LastAt(features, c, k)
  {
    k := |features| - 1;
    while features[k] != c
      invariant 0 <= k < |features|
      invariant c in features[..k + 1]
      invariant forall j :: k < j < |features| ==> features[j] != c
      decreases k
    {
      k := k - 1;
    }
  }

  /** Cell r of column c of the frame is the index of df[r][c] in c's dictionary. */
  ghost predicate EncodedCell<V>(frame: map<string, seq<int>>, df: seq<Row<V>>, m: IdMap<V>, c: string, r: int) {
    && c in frame && 0 <= r < |df| && c in df[r] && c in m && df[r][c] in m[c]
    && |frame[c]| == |df| && frame[c][r] == m[c][df[r][c]]
  }

  /** Column c of the by-file frame holds, for every row r, the index of df[r][c] in c's dictionary. */
  lemma FrameOfTable<V>(df: seq<Row<V>>, features: seq<string>, m: IdMap<V>, mc: seq<seq<int>>)
    requires |mc| == |df|
    requires forall r :: 0 <= r < |df| ==> |mc[r]| == |features|
    requires forall r :: 0 <= r < |df| ==> Covers(m, df[r], features) && mc[r] == RowCodes(m, df[r], features)
    ensures FrameOf(mc, features).Keys == if df == [] then {} else Elements(features)
    ensures forall c, r :: c in FrameOf(mc, features) && 0 <= r < |df| ==> EncodedCell(FrameOf(mc, features), df, m, c, r)
  {
    FrameOfKeys(mc, features);
    forall c, r | c in FrameOf(mc, features) && 0 <= r < |df|
      ensures EncodedCell(FrameOf(mc, features), df, m, c, r)
    {
      var k := LastOccurrence(features, c);
      FrameOfColumns(mc, features, k);
    }
  }

  /** The trainer returned, for every column k, a d x dims[k] buffer. */
  ghost predicate EngineShaped<V>(df: seq<Row<V>>, features: seq<string>, trained: seq<FlatMatrix>, d: nat)
    requires WellFormed(df, features)
  {
    && EngineReturned(trained, |features|)
    && forall k :: 0 <= k < |features| ==>
         && features[k] in TableMap(df, features)
         && trained[k].rows == d
         && trained[k].columns == |TableMap(df, features)[features[k]]|
  }

  /**
   * Every declared column has a dense dictionary and as many stored factor rows as it has
   * indices, each of length d.
   */
  ghost predicate FactorsFit<V>(factors: Factors, m: IdMap<V>, features: seq<string>, d: nat) {
    forall c :: c in features ==>
      && c in factors && c in m && Dense(m[c]) && |factors[c]| == |m[c]|
      && forall j :: 0 <= j < |factors[c]| ==> |factors[c][j]| == d
  }

  /** A trainer of the expected shape yields factors that fit the fitted dictionaries. */
  lemma EngineShapedFits<V>(df: seq<Row<V>>, features: seq<string>, trained: seq<FlatMatrix>, d: nat)
    requires WellFormed(df, features) && EngineShaped(df, features, trained, d)
    ensures FactorsFit(AssembleFactors(features, trained), TableMap(df, features), features, d)
  {
    forall c | c in features
      ensures c in AssembleFactors(features, trained) && c in TableMap(df, features)
      ensures Dense(TableMap(df, features)[c])
      ensures |AssembleFactors(features, trained)[c]| == |TableMap(df, features)[c]|
      ensures forall j :: 0 <= j < |AssembleFactors(features, trained)[c]| ==>
                |AssembleFactors(features, trained)[c][j]| == d
    {
      var k := LastOccurrence(features, c);
      AssembledFactorRows(features, trained, k);
      IndexMapDense(df, features, c);
    }
  }

  /** Any index the dictionary of column c hands out selects a stored factor row of length d. */
  lemma SideResolves<V>(factors: Factors, m: IdMap<V>, features: seq<string>, cols: seq<string>, d: nat, row: Row<V>)
    requires FactorsFit(factors, m, features, d)
    requires forall c :: c in cols ==> c in features
    requires Covers(m, row, cols)
    ensures Resolved(factors, cols, RowCodes(m, row, cols), d)
  {
    var codes := RowCodes(m, row, cols);
    forall k | 0 <= k < |cols|
      ensures cols[k] in factors && 1 <= codes[k] <= |factors[cols[k]]| && |factors[cols[k]][codes[k] - 1]| == d
    {
      var c := cols[k];
      assert c in features;
      assert codes[k] == m[c][row[c]];
    }
  }

  /** The index list `getScore` builds for a seen pair: the user's row codes on the user side, then the item's. */
  lemma PairIndexes<V>(df: seq<Row<V>>, userCols: seq<string>, itemCols: seq<string>, m: IdMap<V>, user: V, item: V)
    returns (ru: nat, ri: nat)
    requires forall c :: c in userCols ==> c !in itemCols
    requires AllCovered(df, m, userCols + itemCols, USER) && AllCovered(df, m, userCols + itemCols, ITEM)
    requires user in EntityLists(df, m, userCols + itemCols, userCols, USER)
    requires item in EntityLists(df, m, userCols + itemCols, itemCols, ITEM)
    ensures ru < |df| && ri < |df| && Covers(m, df[ru], userCols) && Covers(m, df[ri], itemCols)
    ensures EntityLists(df, m, userCols + itemCols, userCols, USER)[user] +
            EntityLists(df, m, userCols + itemCols, itemCols, ITEM)[item] ==
            RowCodes(m, df[ru], userCols) + RowCodes(m, df[ri], itemCols)
  {
    ru := EntityListFor(df, m, userCols + itemCols, userCols, USER, user);
    ri := EntityListFor(df, m, userCols + itemCols, itemCols, ITEM, item);
    EntityListDeclaredOrder(m, df[ru], userCols, itemCols);
    EntityListDeclaredOrder(m, df[ri], userCols, itemCols);
  }

  lemma PairResolves<V>(df: seq<Row<V>>, userCols: seq<string>, itemCols: seq<string>, trained: seq<FlatMatrix>, d: nat,
                        ru: nat, ri: nat)
    requires WellFormed(df, userCols + itemCols) && EngineShaped(df, userCols + itemCols, trained, d)
    requires ru < |df| && ri < |df|
    requires Covers(TableMap(df, userCols + itemCols), df[ru], userCols)
    requires Covers(TableMap(df, userCols + itemCols), df[ri], itemCols)
    ensures Resolved(AssembleFactors(userCols + itemCols, trained), userCols + itemCols,
                     RowCodes(TableMap(df, userCols + itemCols), df[ru], userCols) +
                     RowCodes(TableMap(df, userCols + itemCols), df[ri], itemCols), d)
  {
    var F := userCols + itemCols;
    EngineShapedFits(df, F, trained, d);
    SideResolves(AssembleFactors(F, trained), TableMap(df, F), F, userCols, d, df[ru]);
    SideResolves(AssembleFactors(F, trained), TableMap(df, F), F, itemCols, d, df[ri]);
    ResolvedConcat(AssembleFactors(F, trained), userCols, itemCols,
                   RowCodes(TableMap(df, F), df[ru], userCols), RowCodes(TableMap(df, F), df[ri], itemCols), d);
  }

  /**
   * After a successful fit on disjoint user-side and item-side columns, with a trainer that
   * returns for column k a d x dims[k] buffer, every user and every item that occurs in the
   * data can be scored: all lookups resolve, and the score is the sum over the d latent
   * components of the product over the declared columns of the selected factor entries.
   */
  lemma FittedPairScores<V>(df: seq<Row<V>>, userCols: seq<string>, itemCols: seq<string>,
                            trained: seq<FlatMatrix>, d: nat, user: V, item: V)
    requires WellFormed(df, userCols + itemCols) && userCols + itemCols != []
    requires forall c :: c in userCols ==> c !in itemCols
    requires EngineShaped(df, userCols + itemCols, trained, d)
    requires AllCovered(df, TableMap(df, userCols + itemCols), userCols + itemCols, USER)
    requires AllCovered(df, TableMap(df, userCols + itemCols), userCols + itemCols, ITEM)
    requires user in EntityLists(df, TableMap(df, userCols + itemCols), userCols + itemCols, userCols, USER)
    requires item in EntityLists(df, TableMap(df, userCols + itemCols), userCols + itemCols, itemCols, ITEM)
    ensures Resolved(AssembleFactors(userCols + itemCols, trained), userCols + itemCols,
                     EntityLists(df, TableMap(df, userCols + itemCols), userCols + itemCols, userCols, USER)[user] +
                     EntityLists(df, TableMap(df, userCols + itemCols), userCols + itemCols, itemCols, ITEM)[item], d)
    ensures Score(AssembleFactors(userCols + itemCols, trained),
                  EntityLists(df, TableMap(df, userCols + itemCols), userCols + itemCols, userCols, USER),
                  EntityLists(df, TableMap(df, userCols + itemCols), userCols + itemCols, itemCols, ITEM),
                  userCols + itemCols, user, item) ==
            Ok(SumOfProducts(Gathered(AssembleFactors(userCols + itemCols, trained), userCols + itemCols,
                     EntityLists(df, TableMap(df, userCols + itemCols), userCols + itemCols, userCols, USER)[user] +
                     EntityLists(df, TableMap(df, userCols + itemCols), userCols + itemCols, itemCols, ITEM)[item], d), d))
  {
    var F := userCols + itemCols;
    var m := TableMap(df, F);
    var ru, ri := PairIndexes(df, userCols, itemCols, m, user, item);
    PairResolves(df, userCols, itemCols, trained, d, ru, ri);
    ScoreIsSumOfProducts(AssembleFactors(F, trained), EntityLists(df, m, F, userCols, USER),
                         EntityLists(df, m, F, itemCols, ITEM), F, user, item, d);
  }

  /** The first n rows of `mc` hold `rows`. */
  ghost predicate HoldsRows(mc: array2<int>, rows: seq<seq<int>>, n: nat)
    reads mc
  {
    && n <= mc.Length0 && n <= |rows|
    && (forall r :: 0 <= r < n ==> |rows[r]| == mc.Length1)
    && forall r, k :: 0 <= r < n && 0 <= k < mc.Length1 ==> mc[r, k] == rows[r][k]
  }

  /** Once every row is stored, each cell of `mc` is the index of its row's value in its column. */
  lemma CellsEncoded<V>(mc: array2<int>, rows: seq<seq<int>>, df: seq<Row<V>>, features: seq<string>, m: IdMap<V>)
    requires mc.Length0 == |df| && mc.Length1 == |features|
    requires HoldsRows(mc, rows, |df|) && RowsEncoded(df, features, |df|, m, rows)
    ensures forall r, k :: 0 <= r < |df| && 0 <= k < |features| ==> mc[r, k] == RowCodes(m, df[r], features)[k]
  {
  }

  /** `mc.put(row_id, i, value)` for every column i of row n; every other row is untouched. */
  method PutRow(mc: array2<int>, n: nat, codes: seq<int>, ghost rows: seq<seq<int>>)
    requires n < mc.Length0 && |codes| == mc.Length1 && |rows| == n
    requires HoldsRows(mc, rows, n)
    modifies mc
    ensures HoldsRows(mc, rows + [codes], n + 1)
    ensures forall r, j :: n < r < mc.Length0 && 0 <= j < mc.Length1 ==> mc[r, j] == old(mc[r, j])
  {
    for k := 0 to |codes|
      invariant forall j :: 0 <= j < k ==> mc[n, j] == codes[j]
      invariant forall r, j :: 0 <= r < mc.Length0 && r != n && 0 <= j < mc.Length1 ==> mc[r, j] == old(mc[r, j])
    {
      mc[n, k] := codes[k];
    }
    forall r, j | 0 <= r < n + 1 && 0 <= j < mc.Length1
      ensures mc[r, j] == (rows + [codes])[r][j]
    {
      if r == n {
        assert (rows + [codes])[r] == codes;
      } else {
        assert (rows + [codes])[r] == rows[r];
        assert old(mc[r, j]) == rows[r][j];
      }
    }
  }

  class TensorCoFi<V(==)> {
    var dim: int
    var nIter: int
    var lamb: real
    var alph: real
    const userColumnNames: seq<string>
    const itemColumnNames: seq<string>
    /** `user_features`: raw user value to its index list. */
    var userFeatures: map<V, seq<int>>
    /** `item_features`: raw item value to its index list. */
    var itemFeatures: map<V, seq<int>>
    var factors: Factors
    /** `_dmap`: the dictionaries of the last fit. */
    var dmap: IdMap<V>

    /** All declared columns, user side first. */
    function Features(): seq<string> {
      userColumnNames + itemColumnNames
    }

    constructor(dim: int := 20, nIter: int := 5, lamb: real := 0.05, alph: real := 40.0,
                userColumns: seq<string> := [USER], itemColumns: seq<string> := [ITEM])
      ensures this.dim == dim && this.nIter == nIter && this.lamb == lamb && this.alph == alph
      ensures userColumnNames == userColumns && itemColumnNames == itemColumns
      ensures userFeatures == map[] && itemFeatures == map[] && factors == map[] && dmap == map[]
    {
      this.dim, this.nIter, this.lamb, this.alph := dim, nIter, lamb, alph;
      userColumnNames, itemColumnNames := userColumns, itemColumns;
      userFeatures, itemFeatures, factors, dmap := map[], map[], map[], map[];
    }

    /** Replaces the four hyper-parameters and nothing else. */
    method SetParams(dim: int := 20, nIter: int := 5, lamb: real := 0.05, alph: real := 40.0)
      modifies this`dim, this`nIter, this`lamb, this`alph
      ensures this.dim == dim && this.nIter == nIter && this.lamb == lamb && this.alph == alph
    {
      this.dim, this.nIter, this.lamb, this.alph := dim, nIter, lamb, alph;
    }

    /**
     * `_dataframe_to_float_matrix`: one row of the matrix per data row, one column per
     * declared column, each cell the dictionary index of the row's value in that column;
     * also rebuilds the entity index lists.
     */
    method DataframeToFloatMatrix(df: seq<Row<V>>) returns (mc: array2<int>, idMap: IdMap<V>)
      requires WellFormed(df, Features())
      modifies this`userFeatures, this`itemFeatures
      ensures fresh(mc) && mc.Length0 == |df| && mc.Length1 == |Features()|
      ensures idMap == TableMap(df, Features())
      ensures AllCovered(df, idMap, Features(), USER) && AllCovered(df, idMap, Features(), ITEM)
      ensures forall r, k :: 0 <= r < |df| && 0 <= k < |Features()| ==>
                mc[r, k] == idMap[Features()[k]][df[r][Features()[k]]]
      ensures userFeatures == EntityLists(df, idMap, Features(), userColumnNames, USER)
      ensures itemFeatures == EntityLists(df, idMap, Features(), itemColumnNames, ITEM)
    {
      var features := Features();
      userFeatures, itemFeatures := map[], map[];
      idMap := map[];
      mc := new int[|df|, |features|];
      ghost var rows: seq<seq<int>> := [];
      MappedPrefixStart(df, features, userColumnNames, itemColumnNames);
      var n := 0;
      while n < |df|
        invariant 0 <= n <= |df|
        invariant MappedPrefix(df, features, userColumnNames, itemColumnNames, n, idMap, userFeatures, itemFeatures)
        invariant RowsEncoded(df, features, n, idMap, rows)
        invariant HoldsRows(mc, rows, n)
      {
        var row := df[n];
        var next, codes, userIdx, itemIdx := EncodeRow(idMap, row, features, userColumnNames, itemColumnNames);
        PutRow(mc, n, codes, rows);
        MappedPrefixStep(df, features, userColumnNames, itemColumnNames, n, idMap, next, userFeatures, itemFeatures);
        CodesSnoc(df, features, n, idMap, next, rows, codes);
        idMap := next;
        rows := rows + [codes];
        userFeatures := userFeatures[row[USER] := userIdx];
        itemFeatures := itemFeatures[row[ITEM] := itemIdx];
        n := n + 1;
      }
      MappedPrefixDone(df, features, userColumnNames, itemColumnNames, idMap, userFeatures, itemFeatures);
      CellsEncoded(mc, rows, df, features, idMap);
    }

    /**
     * `TensorCoFiByFile._map`: the same pass, returning the encoded table as named columns
     * (none at all when there are no rows).
     */
    method MapByFile(df: seq<Row<V>>) returns (frame: map<string, seq<int>>, idMap: IdMap<V>)
      requires WellFormed(df, Features())
      modifies this`userFeatures, this`itemFeatures
      ensures idMap == TableMap(df, Features())
      ensures AllCovered(df, idMap, Features(), USER) && AllCovered(df, idMap, Features(), ITEM)
      ensures frame.Keys == if df == [] then {} else Elements(Features())
      ensures forall c, r :: c in frame && 0 <= r < |df| ==> EncodedCell(frame, df, idMap, c, r)
      ensures userFeatures == EntityLists(df, idMap, Features(), userColumnNames, USER)
      ensures itemFeatures == EntityLists(df, idMap, Features(), itemColumnNames, ITEM)
    {
      var features := Features();
      userFeatures, itemFeatures := map[], map[];
      idMap := map[];
      var mc: seq<seq<int>> := [];
      MappedPrefixStart(df, features, userColumnNames, itemColumnNames);
      var n := 0;
      while n < |df|
        invariant 0 <= n <= |df|
        invariant MappedPrefix(df, features, userColumnNames, itemColumnNames, n, idMap, userFeatures, itemFeatures)
        invariant RowsEncoded(df, features, n, idMap, mc)
      {
        var row := df[n];
        var next, codes, userIdx, itemIdx := EncodeRow(idMap, row, features, userColumnNames, itemColumnNames);
        MappedPrefixStep(df, features, userColumnNames, itemColumnNames, n, idMap, next, userFeatures, itemFeatures);
        CodesSnoc(df, features, n, idMap, next, mc, codes);
        idMap := next;
        mc := mc + [codes];
        userFeatures := userFeatures[row[USER] := userIdx];
        itemFeatures := itemFeatures[row[ITEM] := itemIdx];
        n := n + 1;
      }
      MappedPrefixDone(df, features, userColumnNames, itemColumnNames, idMap, userFeatures, itemFeatures);
      frame := FrameOf(mc, features);
      FrameOfTable(df, features, idMap, mc);
    }

    /**
     * `_fit`: encodes the data, records the dictionaries, computes the cardinalities handed
     * to the trainer and, when they exist, stores the transposed factor matrices `trained`
     * the trainer returns. With no rows the cardinalities raise and the factors stay as they were.
     */
    method Fit(df: seq<Row<V>>, trained: seq<FlatMatrix>) returns (r: Result<seq<nat>, FitError>)
      requires WellFormed(df, Features())
      requires Dims(TableMap(df, Features()), Features()).Ok? ==> EngineReturned(trained, |Features()|)
      modifies this`userFeatures, this`itemFeatures, this`dmap, this`factors
      ensures dmap == TableMap(df, Features())
      ensures AllCovered(df, dmap, Features(), USER) && AllCovered(df, dmap, Features(), ITEM)
      ensures userFeatures == EntityLists(df, dmap, Features(), userColumnNames, USER)
      ensures itemFeatures == EntityLists(df, dmap, Features(), itemColumnNames, ITEM)
      ensures r == Dims(dmap, Features())
      ensures r.Ok? ==> factors == AssembleFactors(Features(), trained)
      ensures r.Err? ==> factors == old(factors)
    {
      var mc, idMap := DataframeToFloatMatrix(df);
      dmap := idMap;
      var features := Features();
      r := Dims(dmap, features);
      if r.Ok? {
        StoreFactors(trained);
      }
    }

    /** The loop of `_fit` over the declared columns: column i's factors are the transposed i-th matrix. */
    method StoreFactors(trained: seq<FlatMatrix>)
      requires EngineReturned(trained, |Features()|)
      modifies this`factors
      ensures factors == AssembleFactors(Features(), trained)
    {
      var features := Features();
      factors := map[];
      for i := 0 to |features|
        invariant factors == AssembleFactors(features[..i], trained)
      {
        assert features[..i + 1][..i] == features[..i];
        factors := factors[features[i] := FactorRows(trained[i])];
      }
      assert features[..|features|] == features;
    }

    /**
     * `TensorCoFiByFile.fit`: maps the data, records the dictionaries, runs the trainer (its
     * stdout `out` and stderr `err` are parameters) and on success stores the column stacks
     * of the two files it names, whose parsed rows are `userRows` and `itemRows`.
     */
    method FitByFile(df: seq<Row<V>>, out: string, err: string,
                     userRows: seq<seq<real>>, userWidth: nat, itemRows: seq<seq<real>>, itemWidth: nat)
      returns (r: Result<(string, string), FitError>)
      requires WellFormed(df, Features())
      requires Rectangular(userRows, userWidth) && Rectangular(itemRows, itemWidth)
      modifies this`userFeatures, this`itemFeatures, this`dmap, this`factors
      ensures dmap == TableMap(df, Features())
      ensures AllCovered(df, dmap, Features(), USER) && AllCovered(df, dmap, Features(), ITEM)
      ensures userFeatures == EntityLists(df, dmap, Features(), userColumnNames, USER)
      ensures itemFeatures == EntityLists(df, dmap, Features(), itemColumnNames, ITEM)
      ensures r == ByFileOutcome(dmap, out, err)
      ensures r.Ok? ==> factors == map[USER := ColumnStack(userRows, userWidth), ITEM := ColumnStack(itemRows, itemWidth)]
      ensures r.Err? ==> factors == old(factors)
    {
      var frame, tmap := MapByFile(df);
      dmap := tmap;
      r := ByFileOutcome(tmap, out, err);
      if r.Ok? {
        factors := map[USER := ColumnStack(userRows, userWidth), ITEM := ColumnStack(itemRows, itemWidth)];
      }
    }

    /** `getScore`: the element-wise product of the entity pair's latent rows, summed. */
    method GetScore(user: V, item: V) returns (r: Result<real, ScoreError>)
      ensures r == Score(factors, userFeatures, itemFeatures, Features(), user, item)
    {
      if user !in userFeatures {
        return Err(UnknownUser);
      }
      if item !in itemFeatures {
        return Err(UnknownItem);
      }
      var names := Features();
      var indexes := userFeatures[user] + itemFeatures[item];
      var ret: Option<seq<real>> := None;
      var i := 0;
      while i < |names|
        invariant 0 <= i <= |names|
        invariant Accumulate(factors, names, indexes, i) == Ok(ret)
      {
        var name := names[i];
        if name !in factors {
          AccumulateStopsAt(factors, names, indexes, i + 1, |names|);
          return Err(MissingFactor(name));
        }
        if i >= |indexes| {
          AccumulateStopsAt(factors, names, indexes, i + 1, |names|);
          return Err(IndexListTooShort);
        }
        var row := RowAt(factors[name], indexes[i] - 1);
        if row.None? {
          AccumulateStopsAt(factors, names, indexes, i + 1, |names|);
          return Err(RowOutOfRange(name, indexes[i]));
        }
        match ret {
          case None =>
            ret := row;
          case Some(acc) =>
            var p := Multiply(acc, row.value);
            if p.None? {
              AccumulateStopsAt(factors, names, indexes, i + 1, |names|);
              return Err(ShapeMismatch(name));
            }
            ret := p;
        }
        i := i + 1;
      }
      if ret.None? {
        return Err(NoColumns);
      }
      return Ok(Sum(ret.value));
    }
  }
}
