/**
 * What start-up derives from the loaded table: the display table behind
 * the volcano plot and the data-table tab, and the range of the
 * log2FoldChange slider.
 */
module Display {
  import opened Frames
  import opened Schema

  /**
   * `SYMBOL + ' , ' + GENENAME.1` for one row; pandas leaves the result
   * missing when either part is missing.
   */
  function Annotate(symbol: Cell, alt: Cell): (a: Cell)
    requires !symbol.Num? && !alt.Num?
    ensures a.Str? <==> symbol.Str? && alt.Str?
    ensures !a.Str? ==> a == NA
    ensures a.Str? ==>
      && |a.s| == |symbol.s| + 3 + |alt.s|
      && a.s[..|symbol.s|] == symbol.s
      && a.s[|symbol.s|..|symbol.s| + 3] == " , "
      && a.s[|symbol.s| + 3..] == alt.s
  {
    if symbol.Str? && alt.Str? then Str(symbol.s + " , " + alt.s) else NA
  }

  /** The positions in the loaded table of the display columns, in display order. */
  function DisplayAt(t: Table): (at: seq<nat>)
    requires Rectangular(t) && forall c :: c in DisplayColumns ==> c in t.columns
    ensures |at| == |DisplayColumns|
    ensures forall a :: 0 <= a < |at| ==> at[a] < |t.columns| && t.columns[at[a]] == DisplayColumns[a]
  {
    seq(|DisplayColumns|, a requires 0 <= a < |DisplayColumns| => IndexOf(t.columns, DisplayColumns[a]))
  }

  /**
   * `diff_df = df[lst]; diff_df['ANOT'] = ...`: the five display columns
   * and the annotation column, or the KeyError naming the display columns
   * the table lacks.
   */
  function DisplayFrame(t: Table): (r: Result<Table>)
    requires Shaped(t) && Typed(t)
    ensures r.Err? <==> exists c :: c in DisplayColumns && c !in t.columns
    ensures r.Err? ==> r.error == KeyError(Missing(DisplayColumns, t.columns))
    ensures r.Ok? ==> Shaped(r.value) && r.value.columns == DisplayColumns + [AnnotationColumn]
    ensures r.Ok? ==> |r.value.rows| == |t.rows|
  {
    var m := Missing(DisplayColumns, t.columns);
    if m != [] then
      assert m[0] in m;
      Err(KeyError(m))
    else
      assert forall c :: c in DisplayColumns ==> c in t.columns;
      var at := DisplayAt(t);
      forall i | 0 <= i < |t.rows|
        ensures !CellAt(t, i, Symbol).Num? && !CellAt(t, i, AltName).Num?
      {
        assert Fits(CellAt(t, i, Symbol), OptionalText);
        assert Fits(CellAt(t, i, AltName), OptionalText);
      }
      DisplayLabelsDistinct();
      Ok(Table(DisplayColumns + [AnnotationColumn], seq(|t.rows|, i requires 0 <= i < |t.rows| =>
           Pick(t.rows[i], at) + [Annotate(CellAt(t, i, Symbol), CellAt(t, i, AltName))])))
  }

  /**
   * Row i of the display table holds row i's display cells, and its
   * annotation joins the row's SYMBOL and GENENAME.1.
   */
  lemma DisplayFrameCells(t: Table, d: Table)
    requires Shaped(t) && Typed(t) && DisplayFrame(t) == Ok(d)
    ensures forall i, c :: 0 <= i < |t.rows| && c in DisplayColumns ==> CellAt(d, i, c) == CellAt(t, i, c)
    ensures forall i :: 0 <= i < |t.rows| ==>
      && !CellAt(t, i, Symbol).Num? && !CellAt(t, i, AltName).Num?
      && CellAt(d, i, AnnotationColumn) == Annotate(CellAt(t, i, Symbol), CellAt(t, i, AltName))
  {
    assert forall c :: c in DisplayColumns ==> c in t.columns;
    var at := DisplayAt(t);
    var cols := d.columns;
    forall a | 0 <= a < |cols|
      ensures IndexOf(cols, cols[a]) == a
    {
      IndexOfDistinct(cols, a);
    }
    forall i, c | 0 <= i < |t.rows| && c in DisplayColumns
      ensures CellAt(d, i, c) == CellAt(t, i, c)
    {
      var a :| 0 <= a < |DisplayColumns| && DisplayColumns[a] == c;
      assert cols[a] == c;
      assert d.rows[i][a] == t.rows[i][at[a]];
    }
    forall i | 0 <= i < |t.rows|
      ensures !CellAt(t, i, Symbol).Num? && !CellAt(t, i, AltName).Num?
      ensures CellAt(d, i, AnnotationColumn) == Annotate(CellAt(t, i, Symbol), CellAt(t, i, AltName))
    {
      assert Fits(CellAt(t, i, Symbol), OptionalText);
      assert Fits(CellAt(t, i, AltName), OptionalText);
      assert cols[|DisplayColumns|] == AnnotationColumn;
    }
  }

  /** The smallest and largest number of a column, or neither when it has no number. */
  datatype Extent = Undefined | Extent(lo: real, hi: real)

  /** `max()` and `min()` of a column: missing values are skipped. */
  function NumberExtent(cells: seq<Cell>): (r: Extent)
    ensures r.Extent? <==> exists c :: c in cells && c.Num?
    ensures r.Extent? ==> r.lo <= r.hi && Num(r.lo) in cells && Num(r.hi) in cells
    ensures r.Extent? ==> forall c :: c in cells && c.Num? ==> r.lo <= c.v <= r.hi
  {
    if cells == [] then Undefined
    else
      assert cells == [cells[0]] + cells[1..];
      var rest := NumberExtent(cells[1..]);
      if !cells[0].Num? then rest
      else
        var v := cells[0].v;
        match rest
        case Undefined => Extent(v, v)
        case Extent(lo, hi) => Extent(if v < lo then v else lo, if v > hi then v else hi)
  }

  /** `min_log`, `max_log`: the bounds of the log2FoldChange slider. */
  function FoldChangeExtent(t: Table): (r: Extent)
    requires Loaded(t)
    ensures r.Extent? <==> exists i :: 0 <= i < |t.rows| && CellAt(t, i, FoldChange).Num?
    ensures r.Extent? ==> r.lo <= r.hi
    ensures r.Extent? ==> forall i :: 0 <= i < |t.rows| && CellAt(t, i, FoldChange).Num? ==>
      r.lo <= CellAt(t, i, FoldChange).v <= r.hi
    ensures r.Extent? ==> exists i :: 0 <= i < |t.rows| && CellAt(t, i, FoldChange) == Num(r.lo)
    ensures r.Extent? ==> exists i :: 0 <= i < |t.rows| && CellAt(t, i, FoldChange) == Num(r.hi)
  {
    var col := Column(t, FoldChange);
    var r := NumberExtent(col);
    assert forall i :: 0 <= i < |t.rows| ==> col[i] in col;
    if r.Extent? then
      var lo :| 0 <= lo < |col| && col[lo] == Num(r.lo);
      var hi :| 0 <= hi < |col| && col[hi] == Num(r.hi);
      assert CellAt(t, lo, FoldChange) == Num(r.lo) && CellAt(t, hi, FoldChange) == Num(r.hi);
      r
    else r
  }
}
