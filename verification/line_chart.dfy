/**
 * The line graph of the selected genes (the `update_line_graph` callback):
 * nothing happens until real genes are chosen; then the rows of the
 * options table whose GENENAME was chosen are turned from wide (one column
 * per sample) to long (gene, sample, value), the data the chart plots.
 */
module LineChart {
  import opened Frames
  import opened Sequences
  import opened Schema
  import opened GeneSelector

  /** The dropdown's initial value, also a placeholder entry. */
  const Sentinel := "Select"
  const VarName := "HepGType"
  const ValueName := "Value"

  /**
   * The dropdown's value: nothing chosen, a single text (the initial value
   * is the text "Select"), or the list of chosen names.
   */
  datatype Selection = NoValue | Single(text: string) | Many(names: seq<string>)

  /** Python's `sub in s` on texts: `sub` occurs in `s` as a substring. */
  predicate Contains(s: string, sub: string) {
    |sub| <= |s| && (s[..|sub|] == sub || Contains(s[1..], sub))
  }

  /** `not genes_type or 'Select' in genes_type`. */
  predicate Skips(sel: Selection) {
    match sel
    case NoValue => true
    case Single(s) => s == "" || Contains(s, Sentinel)
    case Many(names) => names == [] || Sentinel in names
  }

  /** The dropdown's value when the page loads. */
  const InitialSelection := Single(Sentinel)

  /** On page load the line graph is left as it is. */
  lemma InitialSelectionSkips()
    ensures Skips(InitialSelection)
  {
    assert Sentinel[..|Sentinel|] == Sentinel;
  }

  /** What the callback produces: no update, a figure's data, or an exception. */
  datatype LineUpdate = PreventUpdate | Figure(data: Table) | Raised(error: Error)

  /** `GenesTop_2["GENENAME"].isin(names)` for one row: its gene name is one of `names`. */
  predicate IsSelected(row: seq<Cell>, g: nat, names: seq<string>) {
    g < |row| && row[g].Str? && row[g].s in names
  }

  /** The mask `GenesTop_2["GENENAME"].isin(names)` as a test on rows. */
  function Chooser(g: nat, names: seq<string>): seq<Cell> -> bool {
    row => IsSelected(row, g, names)
  }

  /** The positions of the rows whose gene was chosen, ascending. */
  function ChosenRows(t: Table, names: seq<string>): (idx: seq<nat>)
    requires Shaped(t) && GeneName in t.columns
    ensures forall a :: 0 <= a < |idx| ==> idx[a] < |t.rows| && IsSelected(t.rows[idx[a]], IndexOf(t.columns, GeneName), names)
    ensures forall a, b :: 0 <= a < b < |idx| ==> idx[a] < idx[b]
  {
    Positions(t.rows, Chooser(IndexOf(t.columns, GeneName), names))
  }

  /** Every row whose gene was chosen is at one of the chosen positions. */
  lemma ChosenRowsComplete(t: Table, names: seq<string>)
    requires Shaped(t) && GeneName in t.columns
    ensures forall i :: 0 <= i < |t.rows| && IsSelected(t.rows[i], IndexOf(t.columns, GeneName), names) ==>
      i in ChosenRows(t, names)
  {
    PositionsComplete(t.rows, Chooser(IndexOf(t.columns, GeneName), names));
  }

  /**
   * `GenesTop_2[GenesTop_2["GENENAME"].isin(names)]`: the rows at the
   * chosen positions, in table order, with the same columns.
   */
  function SelectGenes(t: Table, names: seq<string>): (r: Table)
    requires Shaped(t) && GeneName in t.columns
    ensures Shaped(r) && r.columns == t.columns
    ensures |r.rows| == |ChosenRows(t, names)|
    ensures forall a :: 0 <= a < |r.rows| ==> r.rows[a] == t.rows[ChosenRows(t, names)[a]]
    ensures forall row :: row in r.rows <==> row in t.rows && IsSelected(row, IndexOf(t.columns, GeneName), names)
  {
    var g := IndexOf(t.columns, GeneName);
    var rows := Filter(t.rows, Chooser(g, names));
    FilterAt(t.rows, Chooser(g, names));
    assert forall i :: 0 <= i < |rows| ==> |rows[i]| == |t.columns| by {
      forall i | 0 <= i < |rows|
        ensures |rows[i]| == |t.columns|
      {
        assert rows[i] in t.rows;
      }
    }
    Table(t.columns, rows)
  }

  /**
   * `update_line_graph`: no update when the selection is empty or holds
   * "Select"; a KeyError without a GENENAME column (the column is looked
   * up before `isin` runs); a TypeError for a single text (`isin` takes
   * only lists); otherwise the long form
   * (GENENAME, HepGType, Value) of the chosen genes' rows.
   */
  function LineGraphData(t: Table, sel: Selection): (r: LineUpdate)
    requires Shaped(t)
    ensures r.PreventUpdate? <==> Skips(sel)
    ensures !Skips(sel) && GeneName !in t.columns ==> r == Raised(KeyError([GeneName]))
    ensures !Skips(sel) && GeneName in t.columns && sel.Single? ==> r == Raised(TypeError)
    ensures !Skips(sel) && GeneName in t.columns && sel.Many? ==>
      r.Figure? && r.data.columns == [GeneName, VarName, ValueName]
  {
    if Skips(sel) then PreventUpdate
    else if GeneName !in t.columns then Raised(KeyError([GeneName]))
    else if !sel.Many? then Raised(TypeError)
    else
      match Melt(SelectGenes(t, sel.names), GeneName, VarName, ValueName)
      case Ok(m) => Figure(m)
      case Err(e) => Raised(e)
  }

  /**
   * The plotted data of a real choice of genes: one row per sample column
   * and chosen row, the rows of sample column j forming block j; every row
   * names a chosen gene, taken from a row of the table.
   */
  lemma {:induction false} LineGraphRows(t: Table, names: seq<string>, m: Table)
    requires NamedRows(t) && LineGraphData(t, Many(names)) == Figure(m)
    ensures |m.rows| == |ValueColumns(t, GeneName)| * |ChosenRows(t, names)|
    ensures forall row: seq<Cell> :: row in m.rows ==> |row| == 3 && row[0].Str? && row[0].s in names
    ensures forall row: seq<Cell> :: row in m.rows ==> exists i :: 0 <= i < |t.rows| && row[0] == CellAt(t, i, GeneName)
  {
    var s := SelectGenes(t, names);
    var g := IndexOf(t.columns, GeneName);
    assert Melt(s, GeneName, VarName, ValueName) == Ok(m);
    assert ValueColumns(s, GeneName) == ValueColumns(t, GeneName);
    MeltIds(s, GeneName, VarName, ValueName, m);
    forall row: seq<Cell> | row in m.rows
      ensures |row| == 3 && row[0].Str? && row[0].s in names
      ensures exists i :: 0 <= i < |t.rows| && row[0] == CellAt(t, i, GeneName)
    {
      var i :| 0 <= i < |s.rows| && row[0] == CellAt(s, i, GeneName);
      assert s.rows[i] in t.rows;
      var i' :| 0 <= i' < |t.rows| && t.rows[i'] == s.rows[i];
      assert row[0] == CellAt(t, i', GeneName);
    }
  }

  /**
   * Every chosen gene's row appears in the plotted data, once per sample
   * column: its name, the column's label and its value under that column.
   */
  lemma {:induction false} LineGraphCovers(t: Table, names: seq<string>, m: Table, i: nat, c: string)
    requires NamedRows(t) && LineGraphData(t, Many(names)) == Figure(m)
    requires i < |t.rows| && CellAt(t, i, GeneName).s in names
    requires c in ValueColumns(t, GeneName)
    ensures [CellAt(t, i, GeneName), Str(c), CellAt(t, i, c)] in m.rows
  {
    var idx, vc := ChosenRows(t, names), ValueColumns(t, GeneName);
    assert i in idx by {
      assert IsSelected(t.rows[i], IndexOf(t.columns, GeneName), names);
      ChosenRowsComplete(t, names);
    }
    var a :| 0 <= a < |idx| && idx[a] == i;
    var j :| 0 <= j < |vc| && vc[j] == c;
    MulBound(j, |vc|, |idx|, a);
    var k := j * |idx| + a;
    LineGraphAt(t, names, m, j, a, k);
    assert m.rows[k] == [CellAt(t, i, GeneName), Str(c), CellAt(t, i, c)];
  }

  /**
   * Row `j * n + i` of the plotted data, for the n chosen rows, is the i-th
   * chosen row's gene name, the label of sample column j and that row's
   * value there: one row per (chosen row, sample column) pair, in
   * variable-major order.
   */
  lemma LineGraphAt(t: Table, names: seq<string>, m: Table, j: nat, i: nat, k: nat)
    requires NamedRows(t) && LineGraphData(t, Many(names)) == Figure(m)
    requires j < |ValueColumns(t, GeneName)| && i < |ChosenRows(t, names)|
    requires k == j * |ChosenRows(t, names)| + i
    ensures ValueColumns(t, GeneName)[j] in t.columns
    ensures k < |m.rows|
    ensures var row, c := ChosenRows(t, names)[i], ValueColumns(t, GeneName)[j];
      m.rows[k] == [CellAt(t, row, GeneName), Str(c), CellAt(t, row, c)]
  {
    var s := SelectGenes(t, names);
    assert Melt(s, GeneName, VarName, ValueName) == Ok(m);
    assert ValueColumns(s, GeneName) == ValueColumns(t, GeneName);
    MeltAt(s, GeneName, VarName, ValueName, m, j, i, k);
    assert s.rows[i] == t.rows[ChosenRows(t, names)[i]];
  }
}
