/**
 * The categorical index mapper and the encoded-matrix builder.
 *
 * Both mappers of tensorCoFi.py make one pass over the rows, in input order, and for
 * every declared feature column look the raw value up in that column's dictionary:
 * a value seen before gets its old index back, a new value gets `len(cmap) + 1`.
 * The specification functions below describe the state after any prefix of that
 * pass. The lemmas prove the allocation invariants: dense 1-based injective indices
 * in first-seen order, entries never reassigned, per-column counts of distinct values.
 */
module Encoding {
  import opened Outcomes

  /** One input row: column name to raw value. */
  type Row<V> = map<string, V>

  /** One column's dictionary: raw value to its 1-based index. */
  type ColumnIndex<V> = map<V, int>

  /** `id_map`: one dictionary per feature column. */
  type IdMap<V> = map<string, ColumnIndex<V>>

  /** The raw keys under which entity index lists are stored. */
  const USER: string := "user"
  const ITEM: string := "item"

  ghost predicate HasColumns<V>(row: Row<V>, cols: seq<string>) {
    forall c :: c in cols ==> c in row
  }

  /** What every caller supplies: each row carries the declared columns and both raw keys. */
  ghost predicate WellFormed<V>(df: seq<Row<V>>, features: seq<string>) {
    forall r :: 0 <= r < |df| ==> USER in df[r] && ITEM in df[r] && HasColumns(df[r], features)
  }

  // ---------------------------------------------------------------------------
  // One dictionary step

  /** `id_map.get(c, {})` */
  function Lookup<V>(m: IdMap<V>, c: string): ColumnIndex<V> {
    if c in m then m[c] else map[]
  }

  /** `cmap.get(v, len(cmap) + 1)` */
  function Encode<V>(cmap: ColumnIndex<V>, v: V): (r: int)
    ensures v in cmap ==> r == cmap[v]
    ensures Dense(cmap) ==> 1 <= r <= |cmap| + 1
  {
    if v in cmap then cmap[v] else |cmap| + 1
  }

  /** `cmap[v] = value` after the lookup above. */
  function Incorporate<V>(cmap: ColumnIndex<V>, v: V): (r: ColumnIndex<V>)
    ensures v in cmap ==> r == cmap
    ensures v !in cmap ==> |r| == |cmap| + 1
  {
    cmap[v := Encode(cmap, v)]
  }

  /** The whole step for column `c`: `id_map[c] = cmap`. */
  function Assign<V>(m: IdMap<V>, c: string, v: V): IdMap<V> {
    m[c := Incorporate(Lookup(m, c), v)]
  }

  /** Indices are 1..|cmap| and distinct raw values have distinct indices. */
  ghost predicate Dense<V>(cmap: ColumnIndex<V>) {
    && (forall v :: v in cmap ==> 1 <= cmap[v] <= |cmap|)
    && (forall v, w :: v in cmap && w in cmap && v != w ==> cmap[v] != cmap[w])
  }

  /** No column disappears and no existing entry of `m` changes in `m'`. */
  ghost predicate Extends<V>(m: IdMap<V>, m': IdMap<V>) {
    forall c :: c in m ==> c in m' && forall v :: v in m[c] ==> v in m'[c] && m'[c][v] == m[c][v]
  }

  /** Every declared column of `row` has an index in `m`. */
  ghost predicate Covers<V>(m: IdMap<V>, row: Row<V>, cols: seq<string>) {
    forall c :: c in cols ==> c in row && c in m && row[c] in m[c]
  }

  /** Index allocation: a new value gets |cmap|+1, a repeated one its old index, nothing else moves. */
  lemma IncorporateAllocates<V>(cmap: ColumnIndex<V>, v: V)
    requires Dense(cmap)
    ensures Dense(Incorporate(cmap, v))
    ensures v !in cmap ==> Incorporate(cmap, v)[v] == |cmap| + 1 && |Incorporate(cmap, v)| == |cmap| + 1
    ensures v in cmap ==> Incorporate(cmap, v) == cmap
    ensures forall w :: w in cmap ==> w in Incorporate(cmap, v) && Incorporate(cmap, v)[w] == cmap[w]
  {
    if v in cmap {
      assert Incorporate(cmap, v) == cmap;
    }
  }

  lemma IncorporateIdempotent<V>(cmap: ColumnIndex<V>, v: V)
    ensures Incorporate(Incorporate(cmap, v), v) == Incorporate(cmap, v)
  {
  }

  lemma ExtendsTransitive<V>(a: IdMap<V>, b: IdMap<V>, c: IdMap<V>)
    requires Extends(a, b) && Extends(b, c)
    ensures Extends(a, c)
  {
  }

  lemma CoversExtends<V>(m: IdMap<V>, m': IdMap<V>, row: Row<V>, cols: seq<string>)
    requires Covers(m, row, cols) && Extends(m, m')
    ensures Covers(m', row, cols)
  {
  }

  // ---------------------------------------------------------------------------
  // The state after a prefix of the pass

  /** `id_map` after the inner loop has handled the columns `cols` of `row`. */
  function RowMap<V>(m: IdMap<V>, row: Row<V>, cols: seq<string>): IdMap<V>
    requires HasColumns(row, cols)
    decreases |cols|
  {
    if cols == [] then m
    else
      var n := |cols| - 1;
      Assign(RowMap(m, row, cols[..n]), cols[n], row[cols[n]])
  }

  /** `id_map` after the outer loop has handled the rows `df`. */
  function TableMap<V>(df: seq<Row<V>>, features: seq<string>): IdMap<V>
    requires WellFormed(df, features)
    decreases |df|
  {
    if df == [] then map[]
    else
      var n := |df| - 1;
      RowMap(TableMap(df[..n], features), df[n], features)
  }

  /** A prefix one longer is the shorter prefix and one more element. */
  lemma PrefixSnoc<T>(s: seq<T>, i: nat)
    requires i < |s|
    ensures s[..i + 1] == s[..i] + [s[i]]
  {
  }

  lemma {:induction false} RowMapExtends<V>(m: IdMap<V>, row: Row<V>, cols: seq<string>)
    requires HasColumns(row, cols)
    ensures Extends(m, RowMap(m, row, cols))
    ensures Covers(RowMap(m, row, cols), row, cols)
    decreases |cols|
  {
    if cols != [] {
      var n := |cols| - 1;
      var p := RowMap(m, row, cols[..n]);
      RowMapExtends(m, row, cols[..n]);
      assert Extends(p, RowMap(m, row, cols));
      ExtendsTransitive(m, p, RowMap(m, row, cols));
      PrefixSnoc(cols, n);
      assert cols[..n + 1] == cols;
      CoversExtends(p, RowMap(m, row, cols), row, cols[..n]);
    }
  }

  /** No entry is ever reassigned: the map after a prefix is contained in the final one. */
  lemma {:induction false} TableMapGrows<V>(df: seq<Row<V>>, features: seq<string>, k: nat)
    requires WellFormed(df, features) && k <= |df|
    ensures Extends(TableMap(df[..k], features), TableMap(df, features))
    decreases |df|
  {
    if k < |df| {
      var n := |df| - 1;
      assert df[..n][..k] == df[..k];
      TableMapGrows(df[..n], features, k);
      RowMapExtends(TableMap(df[..n], features), df[n], features);
      ExtendsTransitive(TableMap(df[..k], features), TableMap(df[..n], features), TableMap(df, features));
    } else {
      assert df[..k] == df;
    }
  }

  /** Every cell of every processed row has its index in the map. */
  lemma {:induction false} TableMapCovers<V>(df: seq<Row<V>>, features: seq<string>)
    requires WellFormed(df, features)
    ensures forall r :: 0 <= r < |df| ==> Covers(TableMap(df, features), df[r], features)
    decreases |df|
  {
    if df != [] {
      var n := |df| - 1;
      var p := TableMap(df[..n], features);
      TableMapCovers(df[..n], features);
      RowMapExtends(p, df[n], features);
      forall r | 0 <= r < n
        ensures Covers(TableMap(df, features), df[r], features)
      {
        assert df[..n][r] == df[r];
        CoversExtends(p, TableMap(df, features), df[r], features);
      }
    }
  }

  // ---------------------------------------------------------------------------
  // One column on its own: an independent reference definition

  function Elements<V>(s: seq<V>): set<V> {
    set x | x in s
  }

  ghost predicate NoDuplicates<V>(s: seq<V>) {
    forall j, k :: 0 <= j < k < |s| ==> s[j] != s[k]
  }

  /** The raw values of column `c`, one per row, in row order. */
  function ColumnValues<V>(df: seq<Row<V>>, c: string): seq<V>
    requires forall r :: 0 <= r < |df| ==> c in df[r]
  {
    seq(|df|, r requires 0 <= r < |df| => df[r][c])
  }

  /** The distinct values of `s` in order of first appearance. */
  function Distinct<V(==)>(s: seq<V>): seq<V>
    decreases |s|
  {
    if s == [] then []
    else
      var d := Distinct(s[..|s| - 1]);
      if s[|s| - 1] in d then d else d + [s[|s| - 1]]
  }

  /** The j-th element of `d` ranked j + 1. */
  function Ranks<V>(d: seq<V>): map<V, int>
    decreases |d|
  {
    if d == [] then map[]
    else
      var n := |d| - 1;
      Ranks(d[..n])[d[n] := n + 1]
  }

  /** A single column's dictionary built by feeding it the values `s` in order. */
  function IndexColumn<V>(s: seq<V>): ColumnIndex<V>
    decreases |s|
  {
    if s == [] then map[]
    else Incorporate(IndexColumn(s[..|s| - 1]), s[|s| - 1])
  }

  lemma {:induction false} DistinctFacts<V>(s: seq<V>)
    ensures NoDuplicates(Distinct(s))
    ensures Elements(Distinct(s)) == Elements(s)
    decreases |s|
  {
    if s != [] {
      var p := s[..|s| - 1];
      DistinctFacts(p);
      assert s == p + [s[|s| - 1]];
      assert Elements(s) == Elements(p) + {s[|s| - 1]};
    }
  }

  lemma {:induction false} RanksKeys<V>(d: seq<V>)
    ensures Ranks(d).Keys == Elements(d)
    decreases |d|
  {
    if d != [] {
      var n := |d| - 1;
      RanksKeys(d[..n]);
      assert d == d[..n] + [d[n]];
      assert Elements(d) == Elements(d[..n]) + {d[n]};
    }
  }

  lemma {:induction false} RanksFacts<V>(d: seq<V>)
    requires NoDuplicates(d)
    ensures Ranks(d).Keys == Elements(d)
    ensures |Ranks(d)| == |d|
    ensures forall j :: 0 <= j < |d| ==> Ranks(d)[d[j]] == j + 1
    decreases |d|
  {
    RanksKeys(d);
    if d != [] {
      var n := |d| - 1;
      var p := d[..n];
      var x := d[n];
      assert NoDuplicates(p) by {
        assert forall j :: 0 <= j < n ==> p[j] == d[j];
      }
      RanksFacts(p);
      var rp := Ranks(p);
      assert x !in rp by {
        assert forall j :: 0 <= j < n ==> p[j] != x;
        assert x !in Elements(p);
      }
      assert Ranks(d) == rp[x := n + 1];
      forall j | 0 <= j < |d|
        ensures Ranks(d)[d[j]] == j + 1
      {
        if j < n {
          assert d[j] == p[j] && d[j] != x;
        }
      }
    }
  }

  /** Ranks of a duplicate-free sequence are dense, and every index 1..|d| is used, in order. */
  lemma RanksDense<V>(d: seq<V>)
    requires NoDuplicates(d)
    ensures Dense(Ranks(d))
  {
    RanksFacts(d);
    var m := Ranks(d);
    forall v | v in m
      ensures exists j :: 0 <= j < |d| && d[j] == v && m[v] == j + 1
    {
      assert v in Elements(d);
      var j :| 0 <= j < |d| && d[j] == v;
    }
  }

  /** Feeding a column its values yields exactly the first-seen ranking of those values. */
  lemma {:induction false} IndexColumnIsFirstSeen<V>(s: seq<V>)
    ensures IndexColumn(s) == Ranks(Distinct(s))
    decreases |s|
  {
    if s != [] {
      var p := s[..|s| - 1];
      var x := s[|s| - 1];
      var d := Distinct(p);
      IndexColumnIsFirstSeen(p);
      DistinctFacts(p);
      RanksFacts(d);
      if x in d {
        assert x in Ranks(d);
        assert Incorporate(Ranks(d), x) == Ranks(d);
      } else {
        assert x !in Ranks(d);
        assert (d + [x])[..|d|] == d;
      }
    }
  }

  /** How the inner loop changes one column's dictionary: at most one value is fed to it. */
  lemma {:induction false} RowMapColumn<V>(m: IdMap<V>, row: Row<V>, cols: seq<string>, c: string)
    requires HasColumns(row, cols)
    ensures c in RowMap(m, row, cols) <==> c in m || c in cols
    ensures Lookup(RowMap(m, row, cols), c) ==
              if c in cols then Incorporate(Lookup(m, c), row[c]) else Lookup(m, c)
    decreases |cols|
  {
    if cols != [] {
      var n := |cols| - 1;
      RowMapColumn(m, row, cols[..n], c);
      assert cols == cols[..n] + [cols[n]];
      if cols[n] == c && c in cols[..n] {
        IncorporateIdempotent(Lookup(m, c), row[c]);
      }
    }
  }

  /**
   * First-seen order: after the whole pass, column `c`'s dictionary is the ranking of
   * its distinct raw values in order of first appearance; a column exists in `id_map`
   * exactly when it is declared and there is at least one row.
   */
  lemma {:induction false} TableMapColumn<V>(df: seq<Row<V>>, features: seq<string>, c: string)
    requires WellFormed(df, features)
    ensures c in TableMap(df, features) <==> c in features && |df| > 0
    ensures c in features ==> Lookup(TableMap(df, features), c) == Ranks(Distinct(ColumnValues(df, c)))
    decreases |df|
  {
    if df == [] {
      if c in features {
        assert ColumnValues(df, c) == [];
      }
    } else {
      var n := |df| - 1;
      TableMapColumn(df[..n], features, c);
      RowMapColumn(TableMap(df[..n], features), df[n], features, c);
      if c in features {
        var s := ColumnValues(df, c);
        assert s[..n] == ColumnValues(df[..n], c);
        IndexColumnIsFirstSeen(s[..n]);
        IndexColumnIsFirstSeen(s);
      }
    }
  }

  /**
   * The index allocation invariant of the whole pass: every column's indices are dense
   * and 1-based, each index r+1 belongs to the r-th distinct value, and the dictionary
   * size is the number of distinct raw values in that column.
   */
  lemma IndexMapDense<V>(df: seq<Row<V>>, features: seq<string>, c: string)
    requires WellFormed(df, features)
    requires c in features && |df| > 0
    ensures c in TableMap(df, features)
    ensures Dense(TableMap(df, features)[c])
    ensures |TableMap(df, features)[c]| == |Elements(ColumnValues(df, c))|
    ensures forall j :: 0 <= j < |Distinct(ColumnValues(df, c))| ==>
              Distinct(ColumnValues(df, c))[j] in TableMap(df, features)[c] &&
              TableMap(df, features)[c][Distinct(ColumnValues(df, c))[j]] == j + 1
  {
    TableMapColumn(df, features, c);
    var d := Distinct(ColumnValues(df, c));
    DistinctFacts(ColumnValues(df, c));
    RanksFacts(d);
    RanksDense(d);
    assert |Ranks(d)| == |Ranks(d).Keys|;
  }

  // ---------------------------------------------------------------------------
  // Encoded rows and entity index lists

  /** The encoded row: one index per declared column, read from `m`. */
  function RowCodes<V>(m: IdMap<V>, row: Row<V>, cols: seq<string>): seq<int>
    requires Covers(m, row, cols)
  {
    seq(|cols|, k requires 0 <= k < |cols| => m[cols[k]][row[cols[k]]])
  }

  /** The codes whose column belongs to `side`, in declared order. */
  function SideCodes(codes: seq<int>, cols: seq<string>, side: seq<string>): seq<int>
    requires |codes| == |cols|
    decreases |cols|
  {
    if cols == [] then []
    else
      var n := |cols| - 1;
      SideCodes(codes[..n], cols[..n], side) + (if cols[n] in side then [codes[n]] else [])
  }

  /** `user_idx` (or `item_idx`) of one row. */
  function EntityList<V>(m: IdMap<V>, row: Row<V>, features: seq<string>, side: seq<string>): seq<int>
    requires Covers(m, row, features)
  {
    SideCodes(RowCodes(m, row, features), features, side)
  }

  ghost predicate AllCovered<V>(df: seq<Row<V>>, m: IdMap<V>, features: seq<string>, key: string) {
    forall r :: 0 <= r < |df| ==> key in df[r] && Covers(m, df[r], features)
  }

  /** `user_features` (or `item_features`) after the rows `df`: each row stores its list under its raw key. */
  function EntityLists<V>(df: seq<Row<V>>, m: IdMap<V>, features: seq<string>, side: seq<string>, key: string): map<V, seq<int>>
    requires AllCovered(df, m, features, key)
    decreases |df|
  {
    if df == [] then map[]
    else
      var n := |df| - 1;
      EntityLists(df[..n], m, features, side, key)[df[n][key] := EntityList(m, df[n], features, side)]
  }

  /** Row `r` is the last row whose raw `key` value is `df[r][key]`. */
  ghost predicate IsLastFor<V>(df: seq<Row<V>>, key: string, r: int)
    requires forall i :: 0 <= i < |df| ==> key in df[i]
    requires 0 <= r < |df|
  {
    forall i :: r < i < |df| ==> df[i][key] != df[r][key]
  }

  lemma {:induction false} RowCodesStable<V>(m: IdMap<V>, m': IdMap<V>, row: Row<V>, cols: seq<string>)
    requires Covers(m, row, cols) && Extends(m, m')
    ensures Covers(m', row, cols)
    ensures RowCodes(m', row, cols) == RowCodes(m, row, cols)
  {
    CoversExtends(m, m', row, cols);
  }

  /** Entity lists only read indices, so they do not change when the map only grows. */
  lemma {:induction false} EntityListsStable<V>(df: seq<Row<V>>, m: IdMap<V>, m': IdMap<V>, features: seq<string>, side: seq<string>, key: string)
    requires AllCovered(df, m, features, key) && Extends(m, m')
    ensures AllCovered(df, m', features, key)
    ensures EntityLists(df, m', features, side, key) == EntityLists(df, m, features, side, key)
    decreases |df|
  {
    forall r | 0 <= r < |df| ensures Covers(m', df[r], features) {
      CoversExtends(m, m', df[r], features);
    }
    if df != [] {
      var n := |df| - 1;
      assert forall r :: 0 <= r < n ==> df[..n][r] == df[r];
      EntityListsStable(df[..n], m, m', features, side, key);
      RowCodesStable(m, m', df[n], features);
    }
  }

  /** The stored keys are exactly the raw keys seen. */
  lemma {:induction false} EntityListsKeys<V>(df: seq<Row<V>>, m: IdMap<V>, features: seq<string>, side: seq<string>, key: string)
    requires AllCovered(df, m, features, key)
    ensures EntityLists(df, m, features, side, key).Keys == set r | 0 <= r < |df| :: df[r][key]
    decreases |df|
  {
    if df != [] {
      var n := |df| - 1;
      var p := df[..n];
      assert AllCovered(p, m, features, key);
      EntityListsKeys(p, m, features, side, key);
      assert (set r | 0 <= r < |df| :: df[r][key]) == (set r | 0 <= r < n :: p[r][key]) + {df[n][key]};
    }
  }

  lemma {:induction false} EntityListsAt<V>(df: seq<Row<V>>, m: IdMap<V>, features: seq<string>, side: seq<string>, key: string, r: nat)
    requires AllCovered(df, m, features, key)
    requires r < |df| && IsLastFor(df, key, r)
    ensures df[r][key] in EntityLists(df, m, features, side, key)
    ensures EntityLists(df, m, features, side, key)[df[r][key]] == EntityList(m, df[r], features, side)
    decreases |df|
  {
    var n := |df| - 1;
    if r < n {
      var p := df[..n];
      assert p[r] == df[r];
      assert AllCovered(p, m, features, key);
      assert IsLastFor(p, key, r);
      assert df[n][key] != df[r][key];
      EntityListsAt(p, m, features, side, key, r);
    }
  }

  /**
   * Later rows overwrite earlier ones: the stored keys are exactly the raw keys seen, and
   * each stored list is the one of the last row with that key.
   */
  lemma EntityListsLastRow<V>(df: seq<Row<V>>, m: IdMap<V>, features: seq<string>, side: seq<string>, key: string)
    requires AllCovered(df, m, features, key)
    ensures EntityLists(df, m, features, side, key).Keys == set r | 0 <= r < |df| :: df[r][key]
    ensures forall r :: 0 <= r < |df| && IsLastFor(df, key, r) ==>
              EntityLists(df, m, features, side, key)[df[r][key]] == EntityList(m, df[r], features, side)
  {
    EntityListsKeys(df, m, features, side, key);
    forall r | 0 <= r < |df| && IsLastFor(df, key, r)
      ensures EntityLists(df, m, features, side, key)[df[r][key]] == EntityList(m, df[r], features, side)
    {
      EntityListsAt(df, m, features, side, key, r);
    }
  }

  /** Every raw key that occurs has a last row. */
  lemma LastRowFor<V>(df: seq<Row<V>>, key: string, v: V) returns (r: nat)
    requires forall i :: 0 <= i < |df| ==> key in df[i]
    requires exists i :: 0 <= i < |df| && df[i][key] == v
    ensures r < |df| && df[r][key] == v && IsLastFor(df, key, r)
  {
    r := |df| - 1;
    while df[r][key] != v
      invariant 0 <= r < |df|
      invariant exists i :: 0 <= i <= r && df[i][key] == v
      invariant forall i :: r < i < |df| ==> df[i][key] != v
      decreases r
    {
      r := r - 1;
    }
  }

  /** A stored list is the list of the last row carrying that raw key. */
  lemma EntityListFor<V>(df: seq<Row<V>>, m: IdMap<V>, features: seq<string>, side: seq<string>, key: string, v: V)
    returns (r: nat)
    requires AllCovered(df, m, features, key)
    requires v in EntityLists(df, m, features, side, key)
    ensures r < |df| && df[r][key] == v && IsLastFor(df, key, r)
    ensures EntityLists(df, m, features, side, key)[v] == EntityList(m, df[r], features, side)
  {
    EntityListsKeys(df, m, features, side, key);
    assert exists i :: 0 <= i < |df| && df[i][key] == v;
    r := LastRowFor(df, key, v);
    EntityListsAt(df, m, features, side, key, r);
  }

  lemma {:induction false} SideCodesAppend(a: seq<int>, ca: seq<string>, b: seq<int>, cb: seq<string>, side: seq<string>)
    requires |a| == |ca| && |b| == |cb|
    ensures SideCodes(a + b, ca + cb, side) == SideCodes(a, ca, side) + SideCodes(b, cb, side)
    decreases |cb|
  {
    if cb != [] {
      var n := |cb| - 1;
      assert (a + b)[..|a| + n] == a + b[..n];
      assert (ca + cb)[..|ca| + n] == ca + cb[..n];
      SideCodesAppend(a, ca, b[..n], cb[..n], side);
    } else {
      assert a + b == a && ca + cb == ca;
    }
  }

  lemma {:induction false} SideCodesAll(a: seq<int>, ca: seq<string>, side: seq<string>)
    requires |a| == |ca|
    requires forall c :: c in ca ==> c in side
    ensures SideCodes(a, ca, side) == a
    decreases |ca|
  {
    if ca != [] {
      var n := |ca| - 1;
      SideCodesAll(a[..n], ca[..n], side);
      assert a == a[..n] + [a[n]];
    }
  }

  lemma {:induction false} SideCodesNone(a: seq<int>, ca: seq<string>, side: seq<string>)
    requires |a| == |ca|
    requires forall c :: c in ca ==> c !in side
    ensures SideCodes(a, ca, side) == []
    decreases |ca|
  {
    if ca != [] {
      var n := |ca| - 1;
      SideCodesNone(a[..n], ca[..n], side);
    }
  }

  /**
   * With disjoint user-side and item-side column lists, a user's list is its codes for the
   * user-side columns in declared order (so its length is the number of those columns),
   * and likewise for items.
   */
  lemma EntityListDeclaredOrder<V>(m: IdMap<V>, row: Row<V>, userCols: seq<string>, itemCols: seq<string>)
    requires Covers(m, row, userCols + itemCols)
    requires forall c :: c in userCols ==> c !in itemCols
    ensures Covers(m, row, userCols) && Covers(m, row, itemCols)
    ensures EntityList(m, row, userCols + itemCols, userCols) == RowCodes(m, row, userCols)
    ensures EntityList(m, row, userCols + itemCols, itemCols) == RowCodes(m, row, itemCols)
    ensures |EntityList(m, row, userCols + itemCols, userCols)| == |userCols|
    ensures |EntityList(m, row, userCols + itemCols, itemCols)| == |itemCols|
  {
    var f := userCols + itemCols;
    assert forall c :: c in userCols ==> c in f;
    assert forall c :: c in itemCols ==> c in f;
    var a := RowCodes(m, row, userCols);
    var b := RowCodes(m, row, itemCols);
    assert RowCodes(m, row, f) == a + b;
    SideCodesAppend(a, userCols, b, itemCols, userCols);
    SideCodesAll(a, userCols, userCols);
    SideCodesNone(b, itemCols, userCols);
    SideCodesAppend(a, userCols, b, itemCols, itemCols);
    SideCodesNone(a, userCols, itemCols);
    SideCodesAll(b, itemCols, itemCols);
  }

  // ---------------------------------------------------------------------------
  // The inner loop, shared by both mappers

  /** One pass of the inner loop: column `cols[i]` is encoded and nothing already encoded moves. */
  lemma EncodeStep<V>(m: IdMap<V>, cur: IdMap<V>, row: Row<V>, cols: seq<string>, i: nat)
    requires HasColumns(row, cols) && i < |cols|
    requires cur == RowMap(m, row, cols[..i])
    requires Extends(m, cur) && Covers(cur, row, cols[..i])
    ensures Assign(cur, cols[i], row[cols[i]]) == RowMap(m, row, cols[..i + 1])
    ensures Extends(cur, Assign(cur, cols[i], row[cols[i]]))
    ensures Extends(m, Assign(cur, cols[i], row[cols[i]]))
    ensures Covers(Assign(cur, cols[i], row[cols[i]]), row, cols[..i + 1])
    ensures RowCodes(Assign(cur, cols[i], row[cols[i]]), row, cols[..i + 1]) ==
              RowCodes(cur, row, cols[..i]) + [Encode(Lookup(cur, cols[i]), row[cols[i]])]
  {
    var next := Assign(cur, cols[i], row[cols[i]]);
    assert cols[..i + 1][..i] == cols[..i];
    StepExtends(m, cur, row, cols, i);
    PrefixSnoc(cols, i);
    RowCodesStable(cur, next, row, cols[..i]);
  }

  /** One column step only adds entries, and afterwards the first i + 1 cells have indices. */
  lemma StepExtends<V>(m: IdMap<V>, cur: IdMap<V>, row: Row<V>, cols: seq<string>, i: nat)
    requires HasColumns(row, cols) && i < |cols|
    requires Extends(m, cur) && Covers(cur, row, cols[..i])
    ensures Extends(cur, Assign(cur, cols[i], row[cols[i]]))
    ensures Extends(m, Assign(cur, cols[i], row[cols[i]]))
    ensures Covers(Assign(cur, cols[i], row[cols[i]]), row, cols[..i + 1])
  {
    var next := Assign(cur, cols[i], row[cols[i]]);
    ExtendsTransitive(m, cur, next);
    CoversExtends(cur, next, row, cols[..i]);
    PrefixSnoc(cols, i);
  }

  lemma SideCodesSnoc(codes: seq<int>, cols: seq<string>, i: nat, value: int, side: seq<string>)
    requires |codes| == i < |cols|
    ensures SideCodes(codes + [value], cols[..i + 1], side) ==
              SideCodes(codes, cols[..i], side) + (if cols[i] in side then [value] else [])
  {
    assert (codes + [value])[..i] == codes;
    assert cols[..i + 1][..i] == cols[..i];
  }

  /**
   * Encodes one row: grows the dictionaries of its declared columns and returns the row's
   * codes (`t`), its user-side list (`user_idx`) and its item-side list (`item_idx`).
   */
  method EncodeRow<V>(m: IdMap<V>, row: Row<V>, features: seq<string>, userCols: seq<string>, itemCols: seq<string>)
    returns (m': IdMap<V>, codes: seq<int>, userIdx: seq<int>, itemIdx: seq<int>)
    requires HasColumns(row, features)
    ensures m' == RowMap(m, row, features)
    ensures Extends(m, m') && Covers(m', row, features)
    ensures codes == RowCodes(m', row, features)
    ensures userIdx == EntityList(m', row, features, userCols)
    ensures itemIdx == EntityList(m', row, features, itemCols)
  {
    m', codes, userIdx, itemIdx := m, [], [], [];
    var i := 0;
    while i < |features|
      invariant 0 <= i <= |features|
      invariant m' == RowMap(m, row, features[..i])
      invariant Extends(m, m') && Covers(m', row, features[..i])
      invariant codes == RowCodes(m', row, features[..i])
      invariant userIdx == SideCodes(codes, features[..i], userCols)
      invariant itemIdx == SideCodes(codes, features[..i], itemCols)
    {
      var c := features[i];
      var cmap := Lookup(m', c);
      var value := if row[c] in cmap then cmap[row[c]] else |cmap| + 1;
      cmap := cmap[row[c] := value];
      EncodeStep(m, m', row, features, i);
      assert m'[c := cmap] == Assign(m', c, row[c]);
      m' := m'[c := cmap];
      if c in userCols {
        userIdx := userIdx + [value];
      }
      if c in itemCols {
        itemIdx := itemIdx + [value];
      }
      SideCodesSnoc(codes, features, i, value, userCols);
      SideCodesSnoc(codes, features, i, value, itemCols);
      codes := codes + [value];
      i := i + 1;
    }
    assert features[..i] == features;
  }

  // ---------------------------------------------------------------------------
  // One pass of the outer loop, shared by both mappers

  lemma TableMapSnoc<V>(df: seq<Row<V>>, features: seq<string>, n: nat)
    requires WellFormed(df, features) && n < |df|
    ensures TableMap(df[..n + 1], features) == RowMap(TableMap(df[..n], features), df[n], features)
  {
    assert df[..n + 1][..n] == df[..n];
  }

  /** Row n stores its list under its raw key; the lists of earlier rows are unaffected by the grown map. */
  lemma EntityListsSnoc<V>(df: seq<Row<V>>, m: IdMap<V>, m': IdMap<V>, features: seq<string>, side: seq<string>, key: string, n: nat)
    requires n < |df| && AllCovered(df[..n], m, features, key) && Extends(m, m')
    requires key in df[n] && Covers(m', df[n], features)
    ensures AllCovered(df[..n + 1], m', features, key)
    ensures EntityLists(df[..n + 1], m', features, side, key) ==
              EntityLists(df[..n], m, features, side, key)[df[n][key] := EntityList(m', df[n], features, side)]
  {
    EntityListsStable(df[..n], m, m', features, side, key);
    var p := df[..n + 1];
    forall r | 0 <= r < n + 1
      ensures key in p[r] && Covers(m', p[r], features)
    {
      if r < n {
        assert p[r] == df[..n][r];
      }
    }
    assert p[..n] == df[..n];
  }

  /** What either mapper holds after its first n rows: the dictionaries and both entity tables. */
  ghost predicate MappedPrefix<V>(df: seq<Row<V>>, features: seq<string>, userCols: seq<string>, itemCols: seq<string>,
                                  n: nat, m: IdMap<V>, users: map<V, seq<int>>, items: map<V, seq<int>>) {
    && WellFormed(df, features) && n <= |df|
    && m == TableMap(df[..n], features)
    && AllCovered(df[..n], m, features, USER) && AllCovered(df[..n], m, features, ITEM)
    && (forall r :: 0 <= r < n ==> Covers(m, df[r], features))
    && users == EntityLists(df[..n], m, features, userCols, USER)
    && items == EntityLists(df[..n], m, features, itemCols, ITEM)
  }

  lemma MappedPrefixStart<V>(df: seq<Row<V>>, features: seq<string>, userCols: seq<string>, itemCols: seq<string>)
    requires WellFormed(df, features)
    ensures MappedPrefix(df, features, userCols, itemCols, 0, map[], map[], map[])
  {
    assert df[..0] == [];
  }

  /** Folding row n in: the grown map, with the row's two lists stored under its raw user and item. */
  lemma MappedPrefixStep<V>(df: seq<Row<V>>, features: seq<string>, userCols: seq<string>, itemCols: seq<string>,
                            n: nat, m: IdMap<V>, m': IdMap<V>, users: map<V, seq<int>>, items: map<V, seq<int>>)
    requires MappedPrefix(df, features, userCols, itemCols, n, m, users, items) && n < |df|
    requires m' == RowMap(m, df[n], features) && Extends(m, m') && Covers(m', df[n], features)
    ensures MappedPrefix(df, features, userCols, itemCols, n + 1, m',
                         users[df[n][USER] := EntityList(m', df[n], features, userCols)],
                         items[df[n][ITEM] := EntityList(m', df[n], features, itemCols)])
  {
    TableMapSnoc(df, features, n);
    EntityListsSnoc(df, m, m', features, userCols, USER, n);
    EntityListsSnoc(df, m, m', features, itemCols, ITEM, n);
  }

  /** `rows` holds, for each of the first n data rows, that row's codes under `m`. */
  ghost predicate RowsEncoded<V>(df: seq<Row<V>>, features: seq<string>, n: nat, m: IdMap<V>, rows: seq<seq<int>>) {
    && n <= |df| && |rows| == n
    && forall r :: 0 <= r < n ==> Covers(m, df[r], features) && rows[r] == RowCodes(m, df[r], features)
  }

  /** The encoded rows so far, one code list per row, after appending row n's codes to them. */
  lemma CodesSnoc<V>(df: seq<Row<V>>, features: seq<string>, n: nat, m: IdMap<V>, m': IdMap<V>,
                     rows: seq<seq<int>>, codes: seq<int>)
    requires n < |df| && RowsEncoded(df, features, n, m, rows) && Extends(m, m')
    requires Covers(m', df[n], features) && codes == RowCodes(m', df[n], features)
    ensures RowsEncoded(df, features, n + 1, m', rows + [codes])
  {
    forall r | 0 <= r < n + 1
      ensures Covers(m', df[r], features) && (rows + [codes])[r] == RowCodes(m', df[r], features)
    {
      if r < n {
        RowCodesStable(m, m', df[r], features);
      }
    }
  }

  lemma MappedPrefixDone<V>(df: seq<Row<V>>, features: seq<string>, userCols: seq<string>, itemCols: seq<string>,
                            m: IdMap<V>, users: map<V, seq<int>>, items: map<V, seq<int>>)
    requires MappedPrefix(df, features, userCols, itemCols, |df|, m, users, items)
    ensures m == TableMap(df, features)
    ensures AllCovered(df, m, features, USER) && AllCovered(df, m, features, ITEM)
    ensures users == EntityLists(df, m, features, userCols, USER)
    ensures items == EntityLists(df, m, features, itemCols, ITEM)
  {
    assert df[..|df|] == df;
  }

  // ---------------------------------------------------------------------------
  // Cardinalities

  /** `[len(dmap[c]) for c in cols]`; the first column missing from `m` raises a KeyError. */
  function Dims<V>(m: IdMap<V>, cols: seq<string>): (r: Result<seq<nat>, FitError>)
    ensures r.Ok? <==> forall c :: c in cols ==> c in m
    ensures r.Ok? ==> |r.value| == |cols| && forall k :: 0 <= k < |cols| ==> r.value[k] == |m[cols[k]]|
    ensures r.Err? ==> r.error.MissingColumn? && r.error.column in cols && r.error.column !in m
    decreases |cols|
  {
    if cols == [] then Ok([])
    else if cols[0] !in m then Err(MissingColumn(cols[0]))
    else
      match Dims(m, cols[1..])
      case Ok(rest) => Ok([|m[cols[0]]|] + rest)
      case Err(e) => Err(e)
  }

  /**
   * `dims[k]` is the number of distinct raw values in feature column k; with no rows at all
   * the first declared column is missing and the comprehension raises.
   */
  lemma DimsCountDistinct<V>(df: seq<Row<V>>, features: seq<string>)
    requires WellFormed(df, features)
    ensures |df| > 0 ==> Dims(TableMap(df, features), features).Ok?
    ensures |df| > 0 ==> forall k :: 0 <= k < |features| ==>
              Dims(TableMap(df, features), features).value[k] == |Elements(ColumnValues(df, features[k]))|
    ensures |df| == 0 && |features| > 0 ==> Dims(TableMap(df, features), features) == Err(MissingColumn(features[0]))
  {
    if |df| > 0 {
      forall k | 0 <= k < |features|
        ensures features[k] in TableMap(df, features)
        ensures |TableMap(df, features)[features[k]]| == |Elements(ColumnValues(df, features[k]))|
      {
        IndexMapDense(df, features, features[k]);
      }
    }
  }

  /** The by-file engine arguments `len(tmap[USER])`, `len(tmap[ITEM])`; USER is looked up first. */
  function ByFileCardinalities<V>(m: IdMap<V>): Result<(nat, nat), FitError> {
    if USER !in m then Err(MissingColumn(USER))
    else if ITEM !in m then Err(MissingColumn(ITEM))
    else Ok((|m[USER]|, |m[ITEM]|))
  }

  /** The by-file variant passes the number of distinct raw users and items. */
  lemma ByFileCardinalitiesCount<V>(df: seq<Row<V>>, features: seq<string>)
    requires WellFormed(df, features)
    requires |df| > 0 && USER in features && ITEM in features
    ensures ByFileCardinalities(TableMap(df, features)) ==
              Ok((|Elements(ColumnValues(df, USER))|, |Elements(ColumnValues(df, ITEM))|))
  {
    IndexMapDense(df, features, USER);
    IndexMapDense(df, features, ITEM);
  }
}
