/**
 * The dashboard's state: the table loaded at start-up, the display table
 * and the fold-change extent computed from it, and the two module globals
 * the callbacks share, `GenesTop` (written by `update_store`) and
 * `GenesTop_2` (written by `options`, read by `update_line_graph`).
 */
module Dashboard {
  import opened Frames
  import opened Sequences
  import opened Schema
  import opened TopGenes
  import opened Display
  import opened GeneSelector
  import opened LineChart

  /**
   * How many rows `Genes1[:genes_number]` keeps: all of them when the
   * number box is empty (`None` slices to the end).
   */
  function TopCount(genesNumber: Option<nat>, t: Table): nat {
    match genesNumber
    case Some(k) => k
    case None => |t.rows|
  }

  /** The number box: it accepts 1 to 100 and shows 20 on page load. */
  const GenesNumberMin: nat := 1
  const GenesNumberMax: nat := 100
  const GenesNumberDefault: nat := 20

  /**
   * With a number the box accepts, the store holds at most 100 genes, and
   * when it holds fewer than asked for, the top rows it was cut from are
   * every candidate row.
   */
  lemma BoxedStoreSize(t: Table, k: nat, g: Keyed)
    requires Loaded(t) && GenesNumberMin <= k <= GenesNumberMax
    requires StoreTable(t, TopCount(Some(k), t)) == Ok(g)
    ensures |g.entries| <= GenesNumberMax
    ensures |g.entries| < k ==> |g.entries| == |Candidates(Indexed(t).entries, PadjAt(t), FoldChangeAt(t))|
    ensures |g.entries| < k ==>
      multiset(TopFrame(t, k).entries) == multiset(Candidates(Indexed(t).entries, PadjAt(t), FoldChangeAt(t)))
  {
    StoreSize(t, k, g);
    if |g.entries| < k {
      TopKeepsAll(t, k);
    }
  }

  /** With the number box empty the top rows are every candidate row. */
  lemma UnlimitedKeepsAll(t: Table)
    requires Loaded(t)
    ensures |TopFrame(t, TopCount(None, t)).entries|
      == |Candidates(Indexed(t).entries, PadjAt(t), FoldChangeAt(t))|
    ensures multiset(TopFrame(t, TopCount(None, t)).entries)
      == multiset(Candidates(Indexed(t).entries, PadjAt(t), FoldChangeAt(t)))
  {
    var k := Indexed(t);
    assert |multiset(Candidates(k.entries, PadjAt(t), FoldChangeAt(t)))| <= |multiset(k.entries)|;
    TopKeepsAll(t, |t.rows|);
  }

  /** Once `n` reaches the number of candidates, the top rows are all of them. */
  lemma TopKeepsAll(t: Table, n: nat)
    requires Loaded(t) && n >= |Candidates(Indexed(t).entries, PadjAt(t), FoldChangeAt(t))|
    ensures multiset(TopFrame(t, n).entries) == multiset(Candidates(Indexed(t).entries, PadjAt(t), FoldChangeAt(t)))
  {
    var es, p, q := Indexed(t).entries, PadjAt(t), FoldChangeAt(t);
    TopIsTopN(es, p, q, n);
    assert |Unselected(es, p, q, n)| == 0;
    assert Unselected(es, p, q, n) == [];
  }

  /**
   * End to end: every gene on the line graph drawn from the stored table
   * is the name of a row of the loaded table with padj < 0.05 and
   * |log2FoldChange| > 1.
   */
  lemma {:induction false} PlottedGenesAreSignificant(t: Table, n: nat, g: Keyed, names: seq<string>, m: Table)
    requires Loaded(t) && StoreTable(t, n) == Ok(g)
    requires NamedRows(ResetIndex(g)) && LineGraphData(ResetIndex(g), Many(names)) == Figure(m)
    ensures forall row: seq<Cell> :: row in m.rows ==> (|row| == 3 &&
      exists j :: 0 <= j < |t.rows| && row[0] == CellAt(t, j, GeneName) && PassesMasks(t, j))
  {
    var r := ResetIndex(g);
    LineGraphRows(r, names, m);
    forall row: seq<Cell> | row in m.rows
      ensures |row| == 3 && exists j :: 0 <= j < |t.rows| && row[0] == CellAt(t, j, GeneName) && PassesMasks(t, j)
    {
      var i :| 0 <= i < |r.rows| && row[0] == CellAt(r, i, GeneName);
      assert row[0] == Str(g.entries[i].key);
      StoredGenesAreSignificant(t, n, g, i);
    }
  }

  /** What `GenesTop` holds once set: a table keyed by GENENAME. */
  predicate StoreShaped(g: Option<Keyed>) {
    g.Some? ==> KeyedShaped(g.value) && g.value.indexName == GeneName
  }

  /** What `GenesTop_2` holds once set: a table with a GENENAME column of texts. */
  predicate OptionsShaped(g: Option<Table>) {
    g.Some? ==> NamedRows(g.value)
  }

  /**
   * One run of `update_store` on values: the new `GenesTop` (the old one
   * when the KeyError is raised before the assignment) and the result.
   */
  method StoreStep(t: Table, n: nat, before: Option<Keyed>) returns (after: Option<Keyed>, r: Result<seq<map<string, Cell>>>)
    requires Loaded(t) && StoreShaped(before)
    ensures StoreShaped(after)
    ensures var s := StoreTable(t, n);
      && (s.Ok? ==> after == Some(s.value) && r == Ok(Records(s.value)))
      && (s.Err? ==> after == before && r == Err(s.error))
  {
    var s := StoreTable(t, n);
    if s.Ok? {
      after := Some(s.value);
      r := Ok(Records(s.value));
    } else {
      after := before;
      r := Err(s.error);
    }
  }

  class App {
    /** `df`, the differential-expression table read at start-up. */
    const data: Table
    /** `diff_df`, the table shown in the first tab. */
    const display: Table
    /** `min_log` and `max_log`. */
    const foldRange: Extent
    /** `GenesTop`; `None` until `update_store` first succeeds (reading it raises NameError). */
    var genesTop: Option<Keyed>
    /** `GenesTop_2`; `None` until `options` first succeeds. */
    var genesTop2: Option<Table>
    /**
     * The table is a loaded one, `genesTop` is keyed by GENENAME, and
     * `genesTop2` has a GENENAME column of texts: what each callback that
     * reads them relies on.
     */
    ghost predicate Valid()
      reads this
    {
      Loaded(data) && StoreShaped(genesTop) && OptionsShaped(genesTop2)
    }

    /** Start-up: the display table, the fold-change extent, no globals yet. */
    constructor(t: Table)
      requires Loaded(t)
      ensures Valid()
      ensures data == t && genesTop == None && genesTop2 == None
      ensures DisplayFrame(data) == Ok(display)
      ensures foldRange == FoldChangeExtent(data)
    {
      var d := DisplayFrame(t);
      assert d.Ok? by {
        assert forall c :: c in DisplayColumns ==> c in t.columns;
      }
      data := t;
      display := d.value;
      foldRange := FoldChangeExtent(t);
      genesTop := None;
      genesTop2 := None;
    }

    /**
     * `update_store`: on success `GenesTop` becomes the store table and the
     * callback returns its records; on the KeyError nothing changes.
     */
    method UpdateStore(genesNumber: Option<nat>) returns (r: Result<seq<map<string, Cell>>>)
      requires Valid()
      modifies this
      ensures Valid()
      ensures var s := StoreTable(data, TopCount(genesNumber, data));
        && (s.Ok? ==> genesTop == Some(s.value) && r == Ok(Records(s.value)))
        && (s.Err? ==> genesTop == old(genesTop) && r == Err(s.error))
      ensures genesTop2 == old(genesTop2)
    {
      var stored;
      stored, r := StoreStep(data, TopCount(genesNumber, data), genesTop);
      genesTop := stored;
    }

    /**
     * `options`: `GenesTop_2` becomes the stored table with GENENAME put
     * back as a column, and the result is its gene options; a NameError
     * when no store has succeeded yet.
     */
    method Options() returns (r: Result<seq<DropdownOption>>)
      requires Valid()
      modifies this
      ensures Valid()
      ensures genesTop == old(genesTop)
      ensures genesTop.None? ==> r == Err(NameError) && genesTop2 == old(genesTop2)
      ensures genesTop.Some? ==>
        && genesTop2 == Some(ResetIndex(genesTop.value))
        && NamedRows(genesTop2.value)
        && r == Ok(GeneOptions(genesTop2.value))
    {
      match genesTop
      case None =>
        r := Err(NameError);
      case Some(g) =>
        OptionsOfStore(g);
        genesTop2 := Some(ResetIndex(g));
        r := Ok(GeneOptions(ResetIndex(g)));
    }

    /**
     * `update_line_graph`: no update for an empty selection or one holding
     * "Select"; otherwise a NameError before `options` has run, or the
     * line graph's data built from `GenesTop_2`.
     */
    method UpdateLineGraph(sel: Selection) returns (r: LineUpdate)
      requires Valid()
      ensures Skips(sel) ==> r == PreventUpdate
      ensures !Skips(sel) && genesTop2.None? ==> r == Raised(NameError)
      ensures genesTop2.Some? ==> r == LineGraphData(genesTop2.value, sel)
    {
      if Skips(sel) {
        r := PreventUpdate;
      } else if genesTop2.None? {
        r := Raised(NameError);
      } else {
        r := LineGraphData(genesTop2.value, sel);
      }
    }
  }
}
