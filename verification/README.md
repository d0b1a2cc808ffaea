# Differential-expression dashboard: top genes, gene options and line graph

The dashboard loads one table of differential-expression results at
start-up. Each row is a gene. The columns are GENENAME, the per-sample
values, the DESeq2 statistics (baseMean, log2FoldChange, lfcSE, stat,
pvalue, padj) and two annotation columns (SYMBOL, GENENAME.1). From that
table it derives:

- the display table: five columns plus an ANOT column that joins SYMBOL and
  GENENAME.1, and the range of log2FoldChange for the slider;
- the top-genes table (`update_store`). The table is indexed by GENENAME.
  Rows with padj < 0.05 and |log2FoldChange| > 1 are kept and ranked by
  ascending padj. The first N rows are taken, and the statistics and
  annotation columns are dropped. The result goes into the global
  `GenesTop` and is returned as records;
- the gene dropdown's options (`options`). `GenesTop` with its index reset
  becomes the global `GenesTop_2`. Its distinct gene names, in ascending
  order, become `{label, value}` pairs;
- the line graph's data (`update_line_graph`). There is no update while the
  selection is empty or holds "Select". Otherwise the chosen genes' rows of
  `GenesTop_2` are melted from wide to long form as
  (GENENAME, HepGType, Value).

The model is split into modules:

- `Frames`: a small DataFrame model. It covers labelled columns, rows of
  cells (number, text or missing), an index taken from a column,
  `drop(axis=1)` with its KeyError, `reset_index`,
  `to_dict(orient='records')` and `melt`.
- `Sequences`: boolean-mask filtering and Python's ordering of `str`.
- `Schema`: the column labels and what a loaded table looks like.
- `TopGenes`, `GeneSelector`, `LineChart`, `Display`: the four derivations
  above, as functions with lemmas.
- `Dashboard`: a class `App` whose fields are the loaded table, the display
  table and the two globals. Its methods are the three callbacks, and they
  update the globals the way the callbacks do. A global that no callback
  has set yet is `None`, and reading it gives `NameError`.

Where the code and its stated intent differ, the model follows the code:

- When the number box is empty (`genes_number` is `None`), the slice keeps
  every candidate row, so the top-genes table is not bounded by the box's
  range.
- Because of the initial dropdown value, the first `update_line_graph` sees
  the text "Select" and not a list.

## Model

| member | source | states |
|---|---|---|
| Frames.SetIndex | Fiverr_eliabrodsky_v2.py:194-195 | GENENAME becomes the index and leaves the columns. The other columns keep their relative order, and every one keeps, row by row, the cells it had. |
| Frames.Drop | Fiverr_eliabrodsky_v2.py:204 | `drop(labels, axis=1)` fails exactly when a label is not a column. The KeyError names the missing labels. Otherwise it keeps the other positions. |
| Frames.KeptSpec | Fiverr_eliabrodsky_v2.py:204 | After a drop, the remaining labels are still distinct, are exactly the old labels not dropped, and keep their relative order. Each is found at its old position. |
| Frames.DropKeyed | Fiverr_eliabrodsky_v2.py:204 | A KeyError exactly when a dropped label is absent. Otherwise the same index keys in the same order, the columns minus the dropped ones in their old relative order, and every remaining cell unchanged. |
| Frames.ResetIndex | Fiverr_eliabrodsky_v2.py:222 | The index goes back in as the first column. Each row holds its key followed by its cells under the same labels. |
| Frames.SetIndexResetIndex | Fiverr_eliabrodsky_v2.py:222 | Setting the index again on a reset frame gives back the frame exactly, so `GenesTop_2` loses nothing of `GenesTop`. |
| Frames.Records | Fiverr_eliabrodsky_v2.py:205 | One dictionary per row. Its keys are exactly the column labels (not the index), and each maps to that row's cell. |
| Frames.Melt | Fiverr_eliabrodsky_v2.py:232-234 | A KeyError naming the id column exactly when it is absent. Otherwise the columns are (id, var_name, value_name), with one row per value column and input row. |
| Frames.MeltAt | Fiverr_eliabrodsky_v2.py:232-234 | Row j·n+i of the long form is (row i's id, label of value column j, row i's cell there): variable-major order. |
| Frames.MeltIds | Fiverr_eliabrodsky_v2.py:232-234 | Every long-form row has three cells, and its id is the id of some input row. |
| Sequences.Filter | Fiverr_eliabrodsky_v2.py:196-197 | A boolean mask keeps exactly the rows that pass. A row that passes is kept as often as it occurs, and any other row is dropped. |
| Sequences.Positions | Fiverr_eliabrodsky_v2.py:196-197 | The positions where the mask is true, strictly ascending, each passing the mask. |
| Sequences.PositionsComplete | Fiverr_eliabrodsky_v2.py:196-197 | Every position where the mask is true is listed. |
| Sequences.FilterAt | Fiverr_eliabrodsky_v2.py:196-197 | The masked result is the input's elements at the passing positions, in input order. |
| Sequences.FilterFilter | Fiverr_eliabrodsky_v2.py:196-197 | Applying the padj mask and then the fold-change mask equals one mask by both conditions. |
| Sequences.SortedUnique | Fiverr_eliabrodsky_v2.py:223 | `sort_values(...).unique()` gives the strings of the input, each once, in strictly ascending Python `str` order. |
| Sequences.AscendingUnique | Fiverr_eliabrodsky_v2.py:223 | Two strictly ascending lists with the same elements are equal, so the sorted unique list is determined. |
| Schema.GeneNameKept | Fiverr_eliabrodsky_v2.py:201 | GENENAME is not among the dropped statistics and annotation columns. |
| TopGenes.Indexed | Fiverr_eliabrodsky_v2.py:193-195 | The copy indexed by GENENAME has one entry per row and every other column, padj and log2FoldChange included. |
| TopGenes.Candidates | Fiverr_eliabrodsky_v2.py:196-197 | A row survives both masks exactly when its padj is a number below 0.05 and its log2FoldChange is a number above 1 or below -1. |
| TopGenes.CandidatesCount | Fiverr_eliabrodsky_v2.py:196-197 | A row passing both masks is kept as often as it occurs, and any other row is dropped. |
| TopGenes.InsertAscending | Fiverr_eliabrodsky_v2.py:199 | Inserting a row into rows ranked by padj keeps them ranked. |
| TopGenes.SortByPadj | Fiverr_eliabrodsky_v2.py:199 | Sorting gives ascending padj and a permutation of its input. |
| TopGenes.Ranked | Fiverr_eliabrodsky_v2.py:196-199 | The ranked rows are a permutation of the candidates, ascending by padj. |
| TopGenes.TopIsTopN | Fiverr_eliabrodsky_v2.py:196-203 | The first N ranked rows are min(N, #candidates) rows that pass both masks, ranked by padj. With the rows left out they make up all candidates, and none left out has a smaller padj. |
| TopGenes.TopFrame | Fiverr_eliabrodsky_v2.py:203 | `Genes1[:genes_number]` is still a frame keyed by GENENAME with the indexed columns. |
| TopGenes.StoreTable | Fiverr_eliabrodsky_v2.py:191-205 | `update_store` fails exactly when a statistics or annotation column is absent, with a KeyError naming the loaded table's missing ones. Otherwise the result is keyed by GENENAME. |
| TopGenes.StoreTableRows | Fiverr_eliabrodsky_v2.py:203-204 | The stored table has the top rows' keys in their order. Its columns are exactly the loaded ones minus GENENAME and the dropped ones, in the loaded order, and its cells are the top rows' cells. |
| TopGenes.StoreSize | Fiverr_eliabrodsky_v2.py:203 | The stored table has min(N, #candidates) rows, so never more than N. |
| TopGenes.StoredInPadjOrder | Fiverr_eliabrodsky_v2.py:199-204 | The stored genes are the top rows' genes in the same order, and those rows ascend by padj. |
| TopGenes.TopRowOrigin | Fiverr_eliabrodsky_v2.py:196-203 | Each top row is an indexed row of the loaded table that passes both masks. |
| TopGenes.TopRowIsCandidate | Fiverr_eliabrodsky_v2.py:196-203 | Each top row is one of the indexed rows, and it passes both masks. |
| TopGenes.IndexedRow | Fiverr_eliabrodsky_v2.py:194-195 | An indexed entry's key, padj and log2FoldChange are its loaded row's cells. |
| TopGenes.StoredGenesAreSignificant | Fiverr_eliabrodsky_v2.py:191-205 | Every stored gene is the GENENAME of a loaded row that passes both masks, and every stored cell is that row's cell under the same label. |
| Display.Annotate | Fiverr_eliabrodsky_v2.py:21 | ANOT is SYMBOL, " , ", GENENAME.1 joined. It is `NA` exactly when either part is missing, and is never a number. |
| Display.DisplayAt | Fiverr_eliabrodsky_v2.py:19-20 | `df[lst]` takes the five display columns' positions in display order. |
| Display.DisplayFrame | Fiverr_eliabrodsky_v2.py:19-21 | A KeyError exactly when a display column is absent. Otherwise the columns are the five display columns plus ANOT, with one row per loaded row. |
| Display.DisplayFrameCells | Fiverr_eliabrodsky_v2.py:19-21 | Each display cell is the loaded row's cell under that label, and ANOT is the annotation of that row. |
| Display.NumberExtent | Fiverr_eliabrodsky_v2.py:24-25 | `min()`/`max()` skip missing values and are defined exactly when some number exists. The bounds are members of the column and bound all its numbers. |
| Display.FoldChangeExtent | Fiverr_eliabrodsky_v2.py:24-25 | `min_log` ≤ every log2FoldChange ≤ `max_log`, defined exactly when a row has one. Both bounds are some row's log2FoldChange. |
| GeneSelector.GeneNames | Fiverr_eliabrodsky_v2.py:223 | The GENENAME column as texts, row by row. |
| GeneSelector.GeneOptions | Fiverr_eliabrodsky_v2.py:223 | Label equals value, values strictly ascend (no gene twice), and a name is offered exactly when some row has it. |
| GeneSelector.OptionsAreDetermined | Fiverr_eliabrodsky_v2.py:223 | Any strictly ascending list of exactly the table's gene names is the list of option values. |
| GeneSelector.OptionsOfStore | Fiverr_eliabrodsky_v2.py:222-223 | After `reset_index`, the options offer exactly the gene names that index the stored table. |
| LineChart.InitialSelectionSkips | Fiverr_eliabrodsky_v2.py:109-111 | The dropdown's initial value "Select" makes the line graph skip its update. |
| LineChart.ChosenRows | Fiverr_eliabrodsky_v2.py:231 | The positions of rows whose GENENAME is chosen, strictly ascending. |
| LineChart.ChosenRowsComplete | Fiverr_eliabrodsky_v2.py:231 | Every row whose GENENAME is chosen is at one of those positions. |
| LineChart.SelectGenes | Fiverr_eliabrodsky_v2.py:231 | `isin` keeps exactly the rows at the chosen positions, in table order, with the same columns. |
| LineChart.LineGraphData | Fiverr_eliabrodsky_v2.py:227-234 | No update exactly when the selection is empty or holds "Select". Otherwise a table without GENENAME raises KeyError first. With the column present, a single text raises TypeError. Otherwise the figure data has columns (GENENAME, HepGType, Value). |
| LineChart.LineGraphRows | Fiverr_eliabrodsky_v2.py:231-234 | The plotted data has #sample columns × #chosen rows of the table rows. Each has three cells, and its gene is a chosen name found in some row of the table. |
| LineChart.LineGraphCovers | Fiverr_eliabrodsky_v2.py:231-234 | Every chosen gene's row appears for every sample column as (gene, column label, value). |
| LineChart.LineGraphAt | Fiverr_eliabrodsky_v2.py:232-234 | Row j·n+i of the plotted data, for the table's n chosen rows, is the i-th chosen row's gene, sample column j's label and that row's value there. |
| Dashboard.UnlimitedKeepsAll | Fiverr_eliabrodsky_v2.py:203 | With an empty number box the top rows the store is cut from are every candidate row: as many rows, with the same multiset of rows. |
| Dashboard.TopKeepsAll | Fiverr_eliabrodsky_v2.py:203 | Once N reaches the number of candidates, the top rows are exactly the candidates, as a multiset. |
| Dashboard.BoxedStoreSize | Fiverr_eliabrodsky_v2.py:75-77 | For a number the box accepts (1..100), the store holds at most 100 genes. When it holds fewer than asked, it has as many rows as there are candidates, and the top rows it was cut from are exactly the candidates, as a multiset. |
| Dashboard.PlottedGenesAreSignificant | Fiverr_eliabrodsky_v2.py:191-234 | End to end: every gene drawn on the line graph from the stored table is a loaded row with padj < 0.05 and \|log2FoldChange\| > 1. |
| Dashboard.StoreStep | Fiverr_eliabrodsky_v2.py:191-205 | One `update_store` run on values. On success the new `GenesTop` is the store table and the result is its records. On the KeyError the old `GenesTop` stays and the error is returned. The new value is keyed by GENENAME. |
| Dashboard.App.constructor | Fiverr_eliabrodsky_v2.py:17-25 | Start-up keeps the loaded table, builds the display table and the fold-change range, and leaves both globals unset. |
| Dashboard.App.UpdateStore | Fiverr_eliabrodsky_v2.py:191-205 | `GenesTop` becomes the store table for the box's N and the callback returns its records. On the KeyError `GenesTop` is unchanged. `GenesTop_2` is never touched. |
| Dashboard.App.Options | Fiverr_eliabrodsky_v2.py:220-223 | With `GenesTop` set, `GenesTop_2` becomes its reset frame and the result is its gene options. Otherwise NameError and nothing changes. `GenesTop` is never touched. |
| Dashboard.App.UpdateLineGraph | Fiverr_eliabrodsky_v2.py:227-234 | No update for a skipping selection. NameError before `options` has set `GenesTop_2`. Otherwise the line graph's data from `GenesTop_2`. No global changes. |

## Left out

- Fetching the table over the network and parsing it (`read_table`, lines 16-17). The loaded table is a parameter. `Schema.Loaded` states what it must look like: distinct headers (the reader renames a repeated GENENAME to GENENAME.1), typed columns, and the display columns present.
- Column dtypes: gene names are assumed to be text, annotations text or missing, and padj and log2FoldChange numbers or missing. The TypeErrors pandas raises for other dtypes are not modelled.
- The page layout, and the tabs (lines 28-158). Only the number box's range and default (lines 75-77) and the dropdown's initial value (lines 109-111) are modelled.
- Drawing the figures: the volcano plot (lines 161-186), the heatmap (lines 211-214), the line graph's styling (lines 236-250) and `write_html`. The line graph is modelled up to the data frame it plots. Value rounding (line 242) is display-only.
- Floating point: cells are reals and missing values are `NA`. A NaN compares false, so a missing padj or log2FoldChange fails both masks.
- TopGenes.SortByPadj: pandas' default sort is not stable, so the order of rows with equal padj is not claimed to match. Only ascending padj and the permutation are proved. Rows with a missing padj never reach the sort, so `PadjOf`'s fallback key is never used on them.
- The dead `Genes.drop(lst, axis=1)` on line 202. It raises the same KeyError as line 204, on the same columns, before `GenesTop` is assigned. The model's error path (globals unchanged) is what it produces.
- A negative `genes_number` (a slice from the end) is not modelled, and the box's range is not enforced by the callback. The count is a `nat` or `None`.
- `melt` raising when `value_name` equals an existing column label: the sample columns are assumed not to be labelled "Value".
- Callback ordering and the server's dispatch loop (`run_server`). Each method is one callback run on the current state. The model does not track which store `GenesTop_2` was reset from, so a stale `GenesTop_2` after a later store update is allowed, as in the code.
