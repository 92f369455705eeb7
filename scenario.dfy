/**
 * The worked example of tensorCoFi.py's `__main__` block: four rows with users 1, 1, 3, 4
 * and items 1, 2, 3, 4, one user-side column "user" and one item-side column "item". The
 * lemmas hold for any rows with those two columns (the other columns are never read).
 */
module Scenario {
  import opened Encoding

  function ExampleRows(): seq<Row<int>> {
    [map["user" := 1, "item" := 1, "rating" := 5, "date" := 11],
     map["user" := 1, "item" := 2, "rating" := 3, "date" := 12],
     map["user" := 3, "item" := 3, "rating" := 2, "date" := 13],
     map["user" := 4, "item" := 4, "rating" := 1, "date" := 14]]
  }

  /** Rows whose user column reads 1, 1, 3, 4 and whose item column reads 1, 2, 3, 4. */
  ghost predicate ExampleShape(df: seq<Row<int>>) {
    && WellFormed(df, [USER, ITEM])
    && ColumnValues(df, USER) == [1, 1, 3, 4]
    && ColumnValues(df, ITEM) == [1, 2, 3, 4]
  }

  lemma ExampleRowsShape()
    ensures ExampleShape(ExampleRows())
  {
  }

  lemma ExampleUserValues()
    ensures IndexColumn([1, 1, 3, 4]) == map[1 := 1, 3 := 2, 4 := 3]
  {
    assert [1, 1, 3, 4][..3] == [1, 1, 3];
    assert [1, 1, 3][..2] == [1, 1];
    assert [1, 1][..1] == [1];
    assert [1][..0] == [];
    assert IndexColumn([1]) == map[1 := 1];
    assert IndexColumn([1, 1]) == map[1 := 1];
    assert IndexColumn([1, 1, 3]) == map[1 := 1, 3 := 2];
  }

  lemma ExampleItemValues()
    ensures IndexColumn([1, 2, 3, 4]) == map[1 := 1, 2 := 2, 3 := 3, 4 := 4]
  {
    assert [1, 2, 3, 4][..3] == [1, 2, 3];
    assert [1, 2, 3][..2] == [1, 2];
    assert [1, 2][..1] == [1];
    assert [1][..0] == [];
    assert IndexColumn([1]) == map[1 := 1];
    assert IndexColumn([1, 2]) == map[1 := 1, 2 := 2];
    assert IndexColumn([1, 2, 3]) == map[1 := 1, 2 := 2, 3 := 3];
  }

  lemma ExampleColumn(df: seq<Row<int>>, c: string)
    requires ExampleShape(df) && c in [USER, ITEM]
    ensures c in TableMap(df, [USER, ITEM])
    ensures TableMap(df, [USER, ITEM])[c] == IndexColumn(ColumnValues(df, c))
  {
    TableMapColumn(df, [USER, ITEM], c);
    IndexColumnIsFirstSeen(ColumnValues(df, c));
  }

  lemma ExampleKeys(df: seq<Row<int>>)
    requires ExampleShape(df)
    ensures TableMap(df, [USER, ITEM]).Keys == {USER, ITEM}
  {
    assert |df| == 4 by {
      assert |ColumnValues(df, USER)| == |df|;
    }
    forall c | c in TableMap(df, [USER, ITEM])
      ensures c == USER || c == ITEM
    {
      TableMapColumn(df, [USER, ITEM], c);
    }
    TableMapColumn(df, [USER, ITEM], USER);
    TableMapColumn(df, [USER, ITEM], ITEM);
  }

  lemma TwoKeys<K, W>(m: map<K, W>, a: K, b: K, x: W, y: W)
    requires m.Keys == {a, b} && m[a] == x && m[b] == y
    ensures m == map[a := x, b := y]
  {
  }

  /** Users are numbered 1, 3, 4 -> 1, 2, 3 and items 1..4 -> 1..4, in order of first appearance. */
  lemma ExampleIdMap(df: seq<Row<int>>)
    requires ExampleShape(df)
    ensures TableMap(df, [USER, ITEM]) ==
              map[USER := map[1 := 1, 3 := 2, 4 := 3], ITEM := map[1 := 1, 2 := 2, 3 := 3, 4 := 4]]
  {
    ExampleColumn(df, USER);
    ExampleColumn(df, ITEM);
    ExampleUserValues();
    ExampleItemValues();
    ExampleKeys(df);
    TwoKeys(TableMap(df, [USER, ITEM]), USER, ITEM, map[1 := 1, 3 := 2, 4 := 3], map[1 := 1, 2 := 2, 3 := 3, 4 := 4]);
  }

  lemma ExampleLastRows(df: seq<Row<int>>)
    requires ExampleShape(df)
    ensures |df| == 4 && df[1][USER] == 1 && df[1][ITEM] == 2
    ensures IsLastFor(df, USER, 1) && IsLastFor(df, ITEM, 1)
  {
    var us := ColumnValues(df, USER);
    var its := ColumnValues(df, ITEM);
    assert |us| == |df|;
    assert us[1] == df[1][USER] && us[2] == df[2][USER] && us[3] == df[3][USER];
    assert its[1] == df[1][ITEM] && its[2] == df[2][ITEM] && its[3] == df[3][ITEM];
  }

  /** User 1's list comes from its last row (the second), item 2's from the only row holding it. */
  lemma ExampleEntityLists(df: seq<Row<int>>)
    requires ExampleShape(df)
    ensures AllCovered(df, TableMap(df, [USER, ITEM]), [USER, ITEM], USER)
    ensures AllCovered(df, TableMap(df, [USER, ITEM]), [USER, ITEM], ITEM)
    ensures 1 in EntityLists(df, TableMap(df, [USER, ITEM]), [USER, ITEM], [USER], USER)
    ensures EntityLists(df, TableMap(df, [USER, ITEM]), [USER, ITEM], [USER], USER)[1] == [1]
    ensures 2 in EntityLists(df, TableMap(df, [USER, ITEM]), [USER, ITEM], [ITEM], ITEM)
    ensures EntityLists(df, TableMap(df, [USER, ITEM]), [USER, ITEM], [ITEM], ITEM)[2] == [2]
  {
    var m := TableMap(df, [USER, ITEM]);
    TableMapCovers(df, [USER, ITEM]);
    ExampleIdMap(df);
    ExampleLastRows(df);
    EntityListsAt(df, m, [USER, ITEM], [USER], USER, 1);
    EntityListsAt(df, m, [USER, ITEM], [ITEM], ITEM, 1);
    assert [USER] + [ITEM] == [USER, ITEM];
    EntityListDeclaredOrder(m, df[1], [USER], [ITEM]);
    assert RowCodes(m, df[1], [USER]) == [m[USER][1]];
    assert RowCodes(m, df[1], [ITEM]) == [m[ITEM][2]];
  }
}
