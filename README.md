# TensorCoFi bridge: a verified Dafny model

This project models the Python side of test.fm's TensorCoFi recommender
(`src/testfm/models/tensorCoFi.py`). That code sits between pandas data and a Java
tensor-factorisation trainer. It:

- encodes each categorical feature column into dense 1-based indices, in order of first
  appearance (`_dataframe_to_float_matrix`, and `TensorCoFiByFile._map`);
- records, per raw user and per raw item, the index list of the last row carrying it;
- computes per-column cardinalities for the trainer (`dims`);
- turns the trainer's column-major buffers into per-column factor matrices
  (`_float_matrix2numpy` and the transpose in `_fit`);
- scores a (user, item) pair as a sum of element-wise products of latent rows
  (`getScore`);
- in the file-based variant, decides from the trainer's stdout/stderr whether the fit
  succeeded (`TensorCoFiByFile.fit`).

Modules:

- `outcomes.dfy`: `Option`, `Result` and `FitError` (the ways a fit raises).
- `encoding.dfy`: the index mapper.
  - Specification functions give the state after any prefix of the row pass: `RowMap`,
    `TableMap`, `EntityLists`.
  - `Ranks` and `Distinct` form an independent reference definition of the first-seen
    ranking. `IndexColumn`, the fold of `Incorporate` over one column's values, is proved
    equal to it.
  - Lemmas prove the allocation invariants.
  - `EncodeRow` is the inner per-column loop, which both mappers share.
  - `Dims` and `ByFileCardinalities` are the cardinality lookups.
- `layout.dfy`: the FloatMatrix `(rows, columns, flat data)`, the chunking and the NumPy
  column stack, and `Transpose`, with the index formulas proved.
- `scoring.dfy`: `Score`, which is `getScore` with every way it can raise. It is related to
  an independent multilinear formula `SumOfProducts` and to the dot product, and proved independent of the order of the selected (column, index) pairs.
- `engine_output.dfy`: Python's `str.split(' ')` for a one-character separator, and the
  stdout/stderr decision of the file-based fit.
- `model.dfy`: class `TensorCoFi<V>`.
  - Fields: the hyper-parameters, the declared column lists, `userFeatures`,
    `itemFeatures`, `factors` and `dmap`.
  - Methods: `DataframeToFloatMatrix` (fills an `array2` cell by cell), `MapByFile`,
    `Fit`, `StoreFactors`, `FitByFile`, `GetScore` and `SetParams`.
  - Module-level lemmas connect a fit to later scores.
- `scenario.dfy`: the `__main__` example, with users `[1, 1, 3, 4]` and items `[1, 2, 3, 4]`.

Raw values have a type parameter `V` with equality. A row is a `map<string, V>`, and
`id_map` is a `map<string, map<V, int>>`. Factor entries are exact `real`s.

## Model

| member | source | states |
|---|---|---|
| Encoding.Encode | src/testfm/models/tensorCoFi.py:97 | `cmap.get(v, len(cmap)+1)` returns the stored index of a known value. On a dense dictionary the index always lies between 1 and the size plus one. |
| Encoding.Incorporate | src/testfm/models/tensorCoFi.py:96-98 | Storing back the index of a known value leaves the dictionary unchanged. A new value grows it by exactly one entry. |
| Encoding.IncorporateAllocates | src/testfm/models/tensorCoFi.py:96-99 | From a dense dictionary (indices 1..n, distinct values with distinct indices), a lookup-and-store keeps it dense. A new value gets exactly n+1 and the dictionary grows by one; a repeated value leaves it unchanged (its old index is kept). No existing entry changes. |
| Encoding.IncorporateIdempotent | src/testfm/models/tensorCoFi.py:96-98 | Looking the same value up and storing it a second time changes nothing. |
| Encoding.RowMapExtends | src/testfm/models/tensorCoFi.py:95-99 | The inner loop over a row's declared columns only adds entries, never changes one, and leaves every cell of the row with an index. |
| Encoding.RowMapColumn | src/testfm/models/tensorCoFi.py:95-99 | After one row, a column has a dictionary exactly when it had one or is declared. A declared column's dictionary has been fed that row's value once; any other column's is unchanged. |
| Encoding.EncodeStep | src/testfm/models/tensorCoFi.py:95-100 | One inner-loop pass encodes column i. The map after it is the map after i+1 columns and extends the starting map. The row's codes are the earlier codes followed by `cmap.get(v, len(cmap)+1)`. |
| Encoding.EncodeRow | src/testfm/models/tensorCoFi.py:95-104 | Encoding one row yields the grown dictionaries (which extend the old ones and cover the row), the row's codes, and its user-side and item-side index lists. |
| Encoding.TableMapGrows | src/testfm/models/tensorCoFi.py:91-99 | No entry is ever reassigned: the dictionaries after any prefix of the rows are contained in the final ones. |
| Encoding.TableMapCovers | src/testfm/models/tensorCoFi.py:91-99 | After the pass, every declared cell of every row has an index. |
| Encoding.IndexColumnIsFirstSeen | src/testfm/models/tensorCoFi.py:96-98 | Feeding one column its values in order yields exactly the ranking of its distinct values by first appearance. |
| Encoding.TableMapColumn | src/testfm/models/tensorCoFi.py:91-99 | A column is in `id_map` exactly when it is declared and there is at least one row. Its dictionary is the first-seen ranking of that column's raw values. |
| Encoding.IndexMapDense | src/testfm/models/tensorCoFi.py:91-99 | Each final dictionary is dense and 1-based. Its size is the number of distinct raw values, and the j-th distinct value (by first appearance) has index j+1. |
| Encoding.EntityListsLastRow | src/testfm/models/tensorCoFi.py:101-107 | The stored keys are exactly the raw `user` (or `item`) values seen. Each stored list is the list of the last row carrying that key, so later rows overwrite earlier ones. |
| Encoding.EntityListsKeys | src/testfm/models/tensorCoFi.py:106-107 | The keys of `user_features` (or `item_features`) are exactly the raw `user` (or `item`) values of the rows. |
| Encoding.EntityListsAt | src/testfm/models/tensorCoFi.py:106-107 | The row that is the last one carrying a key determines the list stored under that key. |
| Encoding.EntityListsStable | src/testfm/models/tensorCoFi.py:101-107 | Growing the dictionaries with entries for new values does not change any stored list. |
| Encoding.EntityListFor | src/testfm/models/tensorCoFi.py:106-107 | For any stored key there is a row that is the last one with that key, and the stored list is that row's list. |
| Encoding.EntityListDeclaredOrder | src/testfm/models/tensorCoFi.py:101-104 | With disjoint user-side and item-side column lists, a user's list is the row's codes for the user-side columns in declared order, and so its length is the number of those columns. The same holds for items. |
| Encoding.MappedPrefixStep | src/testfm/models/tensorCoFi.py:91-107 | Folding row n into the state after n rows gives the state after n+1 rows: the dictionaries, and both entity tables with row n stored under its raw user and item. |
| Encoding.Dims | src/testfm/models/tensorCoFi.py:118-119 | The cardinalities exist exactly when every declared column is in the map. Entry k is then the size of column k's dictionary; otherwise the KeyError names a declared column that is missing. |
| Encoding.DimsCountDistinct | src/testfm/models/tensorCoFi.py:118-119 | With at least one row, `dims[k]` is the number of distinct raw values in feature column k. With no rows, the comprehension raises a KeyError on the first declared column. |
| Encoding.ByFileCardinalitiesCount | src/testfm/models/tensorCoFi.py:221 | The file-based variant passes the number of distinct raw users and of distinct raw items. |
| Layout.Chunks | src/testfm/models/tensorCoFi.py:144-146 | The comprehension yields no chunk exactly when the buffer is empty. Every chunk is non-empty and at most `size` long; only the last can be shorter. |
| Layout.ColumnStack | src/testfm/models/tensorCoFi.py:147 | `column_stack` of equal-length columns is a `height x len(cols)` matrix. |
| Layout.Transpose | src/testfm/models/tensorCoFi.py:129 | The transpose of an `n x width` matrix is a `width x n` matrix. |
| Layout.ToNumpy | src/testfm/models/tensorCoFi.py:138-148 | The NumPy matrix is a rectangular `rows x columns` matrix. |
| Layout.FactorRows | src/testfm/models/tensorCoFi.py:128-129 | After the transpose there are `columns` factor rows, each of length `rows`. |
| Layout.ChunksShape | src/testfm/models/tensorCoFi.py:144-146 | A buffer of `count * size` entries is cut into `count` chunks. Chunk c is the slice `[c*size, (c+1)*size)`. |
| Layout.ChunkAt | src/testfm/models/tensorCoFi.py:144-146 | For a buffer of `count * size` entries, chunk c is exactly `lst[c*size:(c+1)*size]`. |
| Layout.ToNumpyCell | src/testfm/models/tensorCoFi.py:138-148 | `_float_matrix2numpy` yields a rows x columns matrix M with `M[r][c] == flat[c*rows + r]`. |
| Layout.TransposeColumnStack | src/testfm/models/tensorCoFi.py:128-129 | Transposing a column stack gives back the stacked columns. |
| Layout.FactorRowsAreChunks | src/testfm/models/tensorCoFi.py:128-129 | After the transpose, factor row j is the buffer slice `[j*rows, (j+1)*rows)`. There is one factor row per buffer column, each of length `rows`. |
| Scoring.RowAt | src/testfm/models/tensorCoFi.py:155-157 | `factors[name][j]` exists exactly when `-len <= j < len` (negative indices count from the end), and it is then one of the matrix's rows. |
| Scoring.Multiply | src/testfm/models/tensorCoFi.py:155 | `np.multiply` of 1-D arrays succeeds exactly when the lengths agree or one array has length 1. The result has the broadcast length. |
| Scoring.SumConcat | src/testfm/models/tensorCoFi.py:158 | Python's `sum` over a concatenation is the sum of the two parts' sums. |
| Scoring.Accumulate | src/testfm/models/tensorCoFi.py:153-157 | A loop that has not raised has read an index for every column it visited. It holds a `ret` exactly when it has visited at least one column. |
| Scoring.Score | src/testfm/models/tensorCoFi.py:150-158 | A score is produced only for a known user and a known item, with at least one declared column and at least as many indices as columns. |
| Scoring.AccumulateStopsAt | src/testfm/models/tensorCoFi.py:153-157 | Once an iteration raises, that exception is what the loop raises. |
| Scoring.AccumulateIsProduct | src/testfm/models/tensorCoFi.py:153-157 | When every lookup resolves to a row of length d, `ret` after n iterations is the component-wise product of the first n selected rows. |
| Scoring.ScoreIsSumOfProducts | src/testfm/models/tensorCoFi.py:150-158 | `getScore(u, i)` is `sum over k < d of prod over n of factors[names[n]][indexes[n]-1][k]`, where `names` is user columns followed by item columns and `indexes` is `user_features[u] + item_features[i]`. |
| Scoring.ScoreIsDotProduct | src/testfm/models/tensorCoFi.py:150-158 | With one user column and one item column, the score is the dot product of the two selected latent rows. |
| Scoring.SumOfProductsTwo | src/testfm/models/tensorCoFi.py:153-158 | With exactly two selected rows, the sum of products is their dot product. |
| Scoring.ScoreLookupMiss | src/testfm/models/tensorCoFi.py:152 | A user absent from `user_features` raises a user lookup error. Otherwise an absent item raises an item lookup error. A score is produced only for known users and items with at least one declared column. |
| Scoring.ScoreExample | src/testfm/models/tensorCoFi.py:150-158 | User row `[1, 2]` and item row `[3, 0.5]` score 4. |
| Scoring.MapSeqPerm | src/testfm/models/tensorCoFi.py:153-157 | Applying the same lookup to two reorderings of a list gives reorderings of the results. |
| Scoring.ProductPerm | src/testfm/models/tensorCoFi.py:155-157 | Reordering the factors of a product does not change it. |
| Scoring.ColumnProductPerm | src/testfm/models/tensorCoFi.py:153-157 | Component k of the accumulated product does not depend on the order of the selected rows. |
| Scoring.SumOfProductsPerm | src/testfm/models/tensorCoFi.py:153-158 | The sum of the component-wise products does not depend on the order of the selected rows. |
| Scoring.ScoreColumnOrder | src/testfm/models/tensorCoFi.py:150-158 | Fix the factors and take two pairs of entity tables and declared column lists. If the (column, index) pairs for a user and an item in one are a reordering of those in the other, and every lookup resolves, the pair gets the same score from both. |
| EngineOutput.Split | src/testfm/models/tensorCoFi.py:228 | `out.split(' ')` has one more piece than `out` has spaces. |
| EngineOutput.JoinSplit | src/testfm/models/tensorCoFi.py:228 | Joining the pieces of a split back with the separator restores the string. |
| EngineOutput.SplitPiecesClean | src/testfm/models/tensorCoFi.py:228 | No piece of a split contains the separator. |
| EngineOutput.SplitClean | src/testfm/models/tensorCoFi.py:228 | A string without the separator splits into itself alone. |
| EngineOutput.SplitPrefix | src/testfm/models/tensorCoFi.py:228 | A separator-free prefix followed by the separator becomes the first piece, and the rest is split on its own. |
| EngineOutput.SplitJoin | src/testfm/models/tensorCoFi.py:228 | Splitting separator-free pieces joined by the separator gives the pieces back. |
| EngineOutput.ReadPaths | src/testfm/models/tensorCoFi.py:224-228 | A reply is accepted only with an empty stderr. The two paths, joined by one space, give back stdout. |
| EngineOutput.ReadPathsOutcome | src/testfm/models/tensorCoFi.py:224-228 | The reply is accepted exactly when stderr is empty and stdout holds exactly one space. A non-empty stderr raises with its text. Any other stdout is malformed. On success the two paths hold no space and `users + " " + items == out`. |
| EngineOutput.ReadPathsRoundTrip | src/testfm/models/tensorCoFi.py:228 | Two space-free paths printed with one space between them are read back as those paths. |
| EngineOutput.ByFileOutcome | src/testfm/models/tensorCoFi.py:221-228 | Success requires both `user` and `item` to be mapped. The outcome is then the reading of the reply. |
| EngineOutput.ByFileOutcomeCases | src/testfm/models/tensorCoFi.py:221-228 | The file-based fit succeeds exactly when both `user` and `item` were mapped and the reply is well formed. Before the trainer runs, a missing `user` raises first, then a missing `item`. |
| TensorCoFiModel.AssembleFactors | src/testfm/models/tensorCoFi.py:126-129 | The loop stores at most one matrix per declared column. |
| TensorCoFiModel.AssembleFactorsKeys | src/testfm/models/tensorCoFi.py:126-129 | After the loop of `_fit`, `factors` holds exactly the declared columns. |
| TensorCoFiModel.AssembleFactorsLast | src/testfm/models/tensorCoFi.py:126-129 | A column declared more than once takes the matrix of its last position. |
| TensorCoFiModel.AssembledFactorRows | src/testfm/models/tensorCoFi.py:126-129 | Column `names[k]` stores the chunks of the k-th buffer: as many rows as the buffer has columns, each as long as the buffer has rows. |
| TensorCoFiModel.FrameOf | src/testfm/models/tensorCoFi.py:204 | Every column of the frame is a declared one and holds one entry per row. |
| TensorCoFiModel.FrameOfColumns | src/testfm/models/tensorCoFi.py:204 | In `dict(zip(features, zip(*mc)))`, column `features[k]` (at its last position) holds `mc[r][k]` for every row r. |
| TensorCoFiModel.FrameOfKeys | src/testfm/models/tensorCoFi.py:204 | The frame has the declared columns, or none when there are no rows. |
| TensorCoFiModel.FrameOfTable | src/testfm/models/tensorCoFi.py:184-204 | The frame `_map` returns has the declared columns (none without rows). Entry r of column c is the final index of `df[r][c]` in c's dictionary. |
| TensorCoFiModel.EngineShapedFits | src/testfm/models/tensorCoFi.py:118-129 | If the trainer returns for column k a d x `dims[k]` buffer, every declared column's stored factors have one row per dictionary index, each of length d. |
| TensorCoFiModel.PairIndexes | src/testfm/models/tensorCoFi.py:152 | For a seen pair, the concatenated index list is the user's last row's user-side codes followed by the item's last row's item-side codes. |
| TensorCoFiModel.FittedPairScores | src/testfm/models/tensorCoFi.py:150-158 | After a fit on disjoint column lists with a trainer of the expected shape, every user and item that occurs can be scored. All lookups resolve, and the score is the sum over the d components of the product of the selected factor entries. |
| TensorCoFiModel.PutRow | src/testfm/models/tensorCoFi.py:100 | `mc.put(row_id, i, value)` for every column i writes row n. The earlier rows still hold their codes, and every later row is left as it was. |
| TensorCoFiModel.TensorCoFi.constructor | src/testfm/models/tensorCoFi.py:40-69 | Defaults are dim 20, 5 iterations, lambda 0.05, alpha 40, columns `["user"]` and `["item"]`. The entity tables, factors and dictionaries start empty. |
| TensorCoFiModel.TensorCoFi.SetParams | src/testfm/models/tensorCoFi.py:160-167 | The four hyper-parameters are replaced and nothing else changes. |
| TensorCoFiModel.TensorCoFi.DataframeToFloatMatrix | src/testfm/models/tensorCoFi.py:83-108 | A fresh `len(df) x len(features)` matrix whose cell (r, k) is the final index of row r's value in `features[k]`. `id_map` is the first-seen encoding of the whole table. The entity tables are the last-row index lists. |
| TensorCoFiModel.TensorCoFi.MapByFile | src/testfm/models/tensorCoFi.py:178-204 | The same pass, with the table returned column by column under the declared names (no columns without rows), plus the same `id_map` and entity tables. |
| TensorCoFiModel.TensorCoFi.Fit | src/testfm/models/tensorCoFi.py:110-130 | The dictionaries and entity tables are replaced. The result is the cardinalities, or their KeyError. On success `factors` is the assembled transposed trainer output; on error it is unchanged. |
| TensorCoFiModel.TensorCoFi.StoreFactors | src/testfm/models/tensorCoFi.py:126-129 | The loop over the declared columns leaves `factors` equal to the assembled transposed buffers. |
| TensorCoFiModel.TensorCoFi.FitByFile | src/testfm/models/tensorCoFi.py:206-234 | The dictionaries and entity tables are replaced before the outcome is decided. The result is `ByFileOutcome`. On success `factors` is exactly the column stacks of the two parsed files under `user` and `item`; on any error it is unchanged. |
| TensorCoFiModel.TensorCoFi.GetScore | src/testfm/models/tensorCoFi.py:150-158 | The loop returns `Score` of the current state, including every exception in the order Python raises them. It has no modifies clause, so the model does not change. |
| Scenario.ExampleRowsShape | src/testfm/models/tensorCoFi.py:238-240 | The example frame has users `1, 1, 3, 4` and items `1, 2, 3, 4`. |
| Scenario.ExampleIdMap | src/testfm/models/tensorCoFi.py:237-240 | Such rows give `id_map["user"] == {1: 1, 3: 2, 4: 3}` and `id_map["item"] == {1: 1, 2: 2, 3: 3, 4: 4}`. |
| Scenario.ExampleEntityLists | src/testfm/models/tensorCoFi.py:237-240 | Such rows give `user_features[1] == [1]` (from its last row) and `item_features[2] == [2]`. |

## Left out

- The Java trainer (`JavaTensorCoFi`, `train`, `getModel`, `FloatMatrix.toArray`, lines 21-35 and 121-125) is foreign code. What it returns is the parameter `trained` of `Fit`. How that output depends on the encoded matrix and the hyper-parameters is not modelled, and `_fit`'s return value (the Java object) is not modelled either.
- TensorCoFiModel.TensorCoFi.Fit requires that, when the cardinalities exist, the trainer returned one buffer per declared column, with positive dimensions and `rows * columns` entries. What NumPy would raise on a malformed buffer is not modelled.
- The subprocess and the file system in `TensorCoFiByFile.fit` are not modelled: the timestamped directory, `to_csv`, `Popen`, `communicate`, `print out`, `open` and `genfromtxt` (lines 209-222, 226, 229-234). The process's stdout and stderr are parameters, and so are the two parsed factor files, as rectangular matrices.
- TensorCoFiModel.TensorCoFi.FitByFile: a factor file with a single line (which `genfromtxt` returns as a 1-D array) is not modelled, and neither are files that are not numeric text.
- Floating point is not modelled. Factor entries are exact reals, and `np.multiply`/`sum` do not round.
- The FloatMatrix holds 32-bit floats; the model stores the indices as integers. Indices above 2^24, which float32 cannot represent exactly, are not modelled.
- `getName` and `paramDetails` are not modelled: they are string rendering and a constant table.
- `TensorCoFiByFile` is a subclass. Its `_map` and `fit` are the methods `MapByFile` and `FitByFile` of the same class, and its class attribute `_dmap = {}` is an ordinary field that starts empty. `TensorCoFi.fit` (lines 132-136) only calls `_fit`, which is `Fit`.
- Aliasing through the mutable default column lists (line 41) is not modelled: the column lists are immutable values.
- A pandas DataFrame has the same columns in every row. The mappers require every row to carry the declared columns and `user`/`item`; the KeyError that pandas raises on the first row when a declared column is absent is not modelled.
- NaN raw values, which never compare equal and so never repeat in a dictionary, are not modelled: raw values have ordinary equality.
- Scoring.ScoreColumnOrder: the lemma is stated for index lists whose (column, index) pairs are reorderings of each other. It does not prove that refitting with reordered declared columns gives such lists. Each column's dictionary depends only on that column's values, so the lists would be permuted the same way, but the lemma also needs the trainer to return each column's factors regardless of the column order, and the Java trainer is not modelled.
- TensorCoFiModel.TensorCoFi.GetScore: NumPy's broadcasting is modelled only for the 1-D cases (equal lengths, or one operand of length 1). Negative row indices count from the end, as in NumPy.

## Notes on the code as written

- The trainer's stdout is split with `out.split(' ')`, which is exactly one space character and not any whitespace. A trailing newline therefore stays part of the item path. The model follows the code.
- When the file-based fit fails, `_dmap` and the entity tables have already been replaced, while `factors` keeps its previous value. The model states exactly that; it does not treat the model as left without factors.
- With no rows at all, `dims` raises a KeyError on the first declared column, and the file-based fit raises a KeyError before the trainer runs. Both appear as `MissingColumn` results.
- A column may be declared both for users and for items. With `user_column_names == ["user", "x"]`
  and `item_column_names == ["item", "x"]`, each row appends x's code twice to each list
  (once per position of x in `features`): `user_idx` is `[u, x, x]` and `item_idx` is `[x, i, x]`.
  `getScore` then zips the four names with the six indexes, so `"item"` is looked up with x's
  code and the item's own code is never used. `factors["x"]` holds the matrix of x's last
  position. The model follows the code.
- In the file-based fit, `factors["user"]` is the column stack of the parsed rows, that is, their transpose. Whether `getScore` then selects a latent row per entity depends on whether the trainer writes one line per entity or one per latent component. That file layout is decided by the Java trainer, which is not part of this model.
