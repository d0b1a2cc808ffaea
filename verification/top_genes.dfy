/**
 * The top-N significant genes (the `update_store` callback): index the
 * table by gene name, keep rows with padj < 0.05 and |log2FoldChange| > 1,
 * rank them by ascending padj, take the first N and drop the statistics
 * and annotation columns, leaving the per-sample values.
 */
module TopGenes {
  import opened Frames
  import opened Sequences
  import opened Schema

  /** `padj < 0.05`; a missing padj fails the comparison. */
  predicate Significant(e: Entry, p: nat) {
    p < |e.cells| && e.cells[p].Num? && e.cells[p].v < 0.05
  }

  /** `log2FoldChange > 1 or log2FoldChange < -1`; a missing value fails both. */
  predicate StrongChange(e: Entry, q: nat) {
    q < |e.cells| && e.cells[q].Num? && (e.cells[q].v > 1.0 || e.cells[q].v < -1.0)
  }

  /** Row j of the loaded table passes both masks: padj < 0.05 and |log2FoldChange| > 1. */
  predicate PassesMasks(t: Table, j: nat)
    requires Loaded(t) && j < |t.rows|
  {
    && CellAt(t, j, Padj).Num? && CellAt(t, j, Padj).v < 0.05
    && CellAt(t, j, FoldChange).Num?
    && (CellAt(t, j, FoldChange).v > 1.0 || CellAt(t, j, FoldChange).v < -1.0)
  }

  /** The loaded table indexed by gene name. */
  function Indexed(t: Table): (k: Keyed)
    requires Loaded(t)
    ensures KeyedShaped(k) && k.indexName == GeneName
    ensures forall c :: c in k.columns <==> c in t.columns && c != GeneName
    ensures Padj in k.columns && FoldChange in k.columns
    ensures |k.entries| == |t.rows|
  {
    forall i | 0 <= i < |t.rows|
      ensures t.rows[i][IndexOf(t.columns, GeneName)].Str?
    {
      assert Fits(CellAt(t, i, GeneName), Kind.Text);
    }
    SetIndex(t, GeneName)
  }

  /** The position of the padj column in the indexed table. */
  function PadjAt(t: Table): nat
    requires Loaded(t)
  {
    IndexOf(Indexed(t).columns, Padj)
  }

  function FoldChangeAt(t: Table): nat
    requires Loaded(t)
  {
    IndexOf(Indexed(t).columns, FoldChange)
  }

  /** `df[df.padj < 0.05]` then `[(fc > 1) | (fc < -1)]`: the rows that pass both masks, in order. */
  function Candidates(es: seq<Entry>, p: nat, q: nat): (r: seq<Entry>)
    ensures forall e :: e in r <==> e in es && Significant(e, p) && StrongChange(e, q)
    ensures multiset(r) <= multiset(es)
  {
    Filter(Filter(es, e => Significant(e, p)), e => StrongChange(e, q))
  }

  /** A row passing both masks is kept as often as it occurs; any other row is dropped. */
  lemma CandidatesCount(es: seq<Entry>, p: nat, q: nat)
    ensures forall e :: multiset(Candidates(es, p, q))[e] ==
                        if Significant(e, p) && StrongChange(e, q) then multiset(es)[e] else 0
  {
  }

  /**
   * The sort key: the padj of a row. Sorting only ever sees rows whose padj
   * is a number (the padj mask runs first), so the fallback is never used.
   */
  function PadjOf(e: Entry, p: nat): real {
    if p < |e.cells| && e.cells[p].Num? then e.cells[p].v else 0.0
  }

  predicate AscendingPadj(es: seq<Entry>, p: nat) {
    forall i, j :: 0 <= i < j < |es| ==> PadjOf(es[i], p) <= PadjOf(es[j], p)
  }

  /** `e` put before the first row of the ranked `s` whose padj is not below its own. */
  function Insert(e: Entry, s: seq<Entry>, p: nat): (r: seq<Entry>)
    ensures multiset(r) == multiset(s) + multiset{e}
  {
    if s == [] || PadjOf(e, p) <= PadjOf(s[0], p) then
      [e] + s
    else
      assert s == [s[0]] + s[1..];
      [s[0]] + Insert(e, s[1..], p)
  }

  /** A lower bound on the padj of `e` and of every row of `s` bounds the result too. */
  lemma {:induction false} InsertBounded(e: Entry, s: seq<Entry>, p: nat, b: real)
    requires b <= PadjOf(e, p)
    requires forall j :: 0 <= j < |s| ==> b <= PadjOf(s[j], p)
    ensures forall j :: 0 <= j < |Insert(e, s, p)| ==> b <= PadjOf(Insert(e, s, p)[j], p)
  {
    if s != [] && PadjOf(s[0], p) < PadjOf(e, p) {
      InsertBounded(e, s[1..], p, b);
    }
  }

  /** Inserting into a ranked sequence keeps it ranked. */
  lemma {:induction false} InsertAscending(e: Entry, s: seq<Entry>, p: nat)
    requires AscendingPadj(s, p)
    ensures AscendingPadj(Insert(e, s, p), p)
  {
    var r := Insert(e, s, p);
    if s == [] || PadjOf(e, p) <= PadjOf(s[0], p) {
      assert r == [e] + s;
      forall i, j | 0 <= i < j < |r|
        ensures PadjOf(r[i], p) <= PadjOf(r[j], p)
      {
        assert r[j] == s[j - 1];
        if i == 0 {
          assert PadjOf(s[0], p) <= PadjOf(s[j - 1], p);
        } else {
          assert r[i] == s[i - 1];
        }
      }
    } else {
      var rest := Insert(e, s[1..], p);
      assert r == [s[0]] + rest;
      assert AscendingPadj(s[1..], p);
      InsertAscending(e, s[1..], p);
      InsertBounded(e, s[1..], p, PadjOf(s[0], p));
      forall i, j | 0 <= i < j < |r|
        ensures PadjOf(r[i], p) <= PadjOf(r[j], p)
      {
        assert r[j] == rest[j - 1];
        if i > 0 {
          assert r[i] == rest[i - 1];
        }
      }
    }
  }

  /** `sort_values(by=['padj'], ascending=True)` on rows whose padj is a number. */
  function SortByPadj(es: seq<Entry>, p: nat): (r: seq<Entry>)
    ensures AscendingPadj(r, p)
    ensures multiset(r) == multiset(es) && |r| == |es|
  {
    if es == [] then []
    else
      assert es == [es[0]] + es[1..];
      var rest := SortByPadj(es[1..], p);
      InsertAscending(es[0], rest, p);
      Insert(es[0], rest, p)
  }

  /** The candidates ranked by ascending padj. */
  function Ranked(es: seq<Entry>, p: nat, q: nat): (r: seq<Entry>)
    ensures AscendingPadj(r, p)
    ensures multiset(r) == multiset(Candidates(es, p, q)) && |r| == |Candidates(es, p, q)|
  {
    SortByPadj(Candidates(es, p, q), p)
  }

  /** `Genes1[:genes_number]`: the first `n` ranked rows. */
  function Top(es: seq<Entry>, p: nat, q: nat, n: nat): seq<Entry> {
    Ranked(es, p, q)[..Min(n, |Ranked(es, p, q)|)]
  }

  /** The ranked rows that did not make it into the first `n`. */
  function Unselected(es: seq<Entry>, p: nat, q: nat, n: nat): seq<Entry> {
    Ranked(es, p, q)[Min(n, |Ranked(es, p, q)|)..]
  }

  lemma RankedSplit(es: seq<Entry>, p: nat, q: nat, n: nat)
    ensures Ranked(es, p, q) == Top(es, p, q, n) + Unselected(es, p, q, n)
  {
    var r := Ranked(es, p, q);
    var m := Min(n, |r|);
    SplitAt(r, m);
  }

  /** The taken rows and the rows left out are ranked rows. */
  lemma RankedParts(es: seq<Entry>, p: nat, q: nat, n: nat)
    ensures forall e :: e in Top(es, p, q, n) ==> e in Ranked(es, p, q)
    ensures forall e :: e in Unselected(es, p, q, n) ==> e in Ranked(es, p, q)
  {
    RankedSplit(es, p, q, n);
  }

  /** Every ranked row is a candidate. */
  lemma RankedAreCandidates(es: seq<Entry>, p: nat, q: nat)
    ensures forall e :: e in Ranked(es, p, q) ==> e in Candidates(es, p, q)
  {
    var r := Ranked(es, p, q);
    forall e | e in r
      ensures e in Candidates(es, p, q)
    {
      assert e in multiset(r);
    }
  }

  /**
   * The top rows are significant, ranked by padj, and exactly the first
   * min(n, #candidates) of the candidates: together with the rows left out
   * they make up all candidates, and no row left out has a smaller padj
   * than a row taken.
   */
  lemma {:induction false} TopIsTopN(es: seq<Entry>, p: nat, q: nat, n: nat)
    ensures |Top(es, p, q, n)| == Min(n, |Candidates(es, p, q)|)
    ensures forall e :: e in Top(es, p, q, n) ==> e in es && Significant(e, p) && StrongChange(e, q)
    ensures AscendingPadj(Top(es, p, q, n), p)
    ensures forall e :: e in Unselected(es, p, q, n) ==> e in es && Significant(e, p) && StrongChange(e, q)
    ensures multiset(Top(es, p, q, n)) + multiset(Unselected(es, p, q, n)) == multiset(Candidates(es, p, q))
    ensures forall i, j :: 0 <= i < |Top(es, p, q, n)| && 0 <= j < |Unselected(es, p, q, n)| ==>
      PadjOf(Top(es, p, q, n)[i], p) <= PadjOf(Unselected(es, p, q, n)[j], p)
  {
    var r, top, rest := Ranked(es, p, q), Top(es, p, q, n), Unselected(es, p, q, n);
    RankedSplit(es, p, q, n);
    RankedParts(es, p, q, n);
    RankedAreCandidates(es, p, q);
    AscendingSplit(r, Min(n, |r|), p);
  }

  /** Cutting an ascending sequence keeps both parts ascending, the first below the second. */
  lemma AscendingSplit(r: seq<Entry>, m: nat, p: nat)
    requires AscendingPadj(r, p) && m <= |r|
    ensures AscendingPadj(r[..m], p) && AscendingPadj(r[m..], p)
    ensures forall i, j :: 0 <= i < m && 0 <= j < |r| - m ==> PadjOf(r[..m][i], p) <= PadjOf(r[m..][j], p)
  {
    forall i, j | 0 <= i < m && 0 <= j < |r| - m
      ensures PadjOf(r[..m][i], p) <= PadjOf(r[m..][j], p)
    {
      assert r[..m][i] == r[i] && r[m..][j] == r[m + j];
    }
  }

  /** The top rows of the loaded table, as a frame indexed by gene name. */
  function TopFrame(t: Table, n: nat): (k: Keyed)
    requires Loaded(t)
    ensures KeyedShaped(k) && k.indexName == GeneName && k.columns == Indexed(t).columns
  {
    var k := Indexed(t);
    var top := Top(k.entries, PadjAt(t), FoldChangeAt(t), n);
    TopIsTopN(k.entries, PadjAt(t), FoldChangeAt(t), n);
    RowsOfFrame(k, top);
    Keyed(GeneName, k.columns, top)
  }

  /**
   * `update_store`: the top-`n` rows keyed by gene name with the statistics
   * and annotation columns dropped. It fails, with the KeyError that
   * dropping raises, exactly when one of those columns is absent.
   */
  function StoreTable(t: Table, n: nat): (r: Result<Keyed>)
    requires Loaded(t)
    ensures r.Err? <==> exists c :: c in StatColumns && c !in t.columns
    ensures r.Err? ==> r.error == KeyError(Missing(StatColumns, t.columns))
    ensures r.Ok? ==> r.value.indexName == GeneName && KeyedShaped(r.value)
  {
    var top := TopFrame(t, n);
    GeneNameKept();
    assert forall c :: c in top.columns <==> c in t.columns && c != GeneName;
    MissingAgree(StatColumns, top.columns, t.columns);
    DropKeyed(top, StatColumns)
  }

  /**
   * A successful store is the top rows with the statistics and annotation
   * columns dropped (so, by `DropKeyed`, the same gene names in the same
   * order and the same remaining cells), and its columns are every loaded
   * column except GENENAME and the dropped ones.
   */
  lemma StoreTableRows(t: Table, n: nat, top: Keyed, g: Keyed)
    requires Loaded(t) && top == TopFrame(t, n) && StoreTable(t, n) == Ok(g)
    ensures KeyedShaped(top) && DropKeyed(top, StatColumns) == Ok(g)
    ensures forall c :: c in g.columns <==> c in t.columns && c != GeneName && c !in StatColumns
    ensures InOrder(g.columns, t.columns)
  {
    GeneNameKept();
    InOrderTrans(g.columns, top.columns, t.columns);
  }

  /** Each top row is a row of the indexed table that passed both masks. */
  lemma TopRowOrigin(t: Table, n: nat, i: nat)
    requires Loaded(t) && i < |TopFrame(t, n).entries|
    ensures exists j :: 0 <= j < |Indexed(t).entries| && Indexed(t).entries[j] == TopFrame(t, n).entries[i]
    ensures Significant(TopFrame(t, n).entries[i], PadjAt(t))
    ensures StrongChange(TopFrame(t, n).entries[i], FoldChangeAt(t))
  {
    var k := Indexed(t);
    assert TopFrame(t, n).entries == Top(k.entries, PadjAt(t), FoldChangeAt(t), n);
    TopRowIsCandidate(k.entries, PadjAt(t), FoldChangeAt(t), n, i);
  }

  /** Row i of the top rows is one of the given rows and passes both masks. */
  lemma TopRowIsCandidate(es: seq<Entry>, p: nat, q: nat, n: nat, i: nat)
    requires i < |Top(es, p, q, n)|
    ensures exists j :: 0 <= j < |es| && es[j] == Top(es, p, q, n)[i]
    ensures Significant(Top(es, p, q, n)[i], p) && StrongChange(Top(es, p, q, n)[i], q)
  {
    TopIsTopN(es, p, q, n);
    assert Top(es, p, q, n)[i] in Top(es, p, q, n);
  }

  /** Row j of the indexed table read back through the loaded table's columns. */
  lemma IndexedRow(t: Table, j: nat)
    requires Loaded(t) && j < |Indexed(t).entries|
    ensures Padj in t.columns && FoldChange in t.columns
    ensures CellAt(t, j, GeneName) == Str(Indexed(t).entries[j].key)
    ensures CellAt(t, j, Padj) == Indexed(t).entries[j].cells[PadjAt(t)]
    ensures CellAt(t, j, FoldChange) == Indexed(t).entries[j].cells[FoldChangeAt(t)]
  {
  }

  /**
   * Every gene of the stored table comes from a row of the loaded table
   * that has padj < 0.05 and |log2FoldChange| > 1, and its sample values
   * are that row's values.
   */
  lemma {:induction false} StoredGenesAreSignificant(t: Table, n: nat, g: Keyed, i: nat)
    requires Loaded(t) && StoreTable(t, n) == Ok(g) && i < |g.entries|
    ensures exists j :: (0 <= j < |t.rows|
        && CellAt(t, j, GeneName) == Str(g.entries[i].key)
        && PassesMasks(t, j)
        && forall c :: c in g.columns ==> g.entries[i].cells[IndexOf(g.columns, c)] == CellAt(t, j, c))
  {
    var k := Indexed(t);
    var top := TopFrame(t, n);
    StoreTableRows(t, n, top, g);
    TopRowOrigin(t, n, i);
    var j :| 0 <= j < |k.entries| && k.entries[j] == top.entries[i];
    assert CellAt(t, j, GeneName) == Str(g.entries[i].key) by {
      IndexedRow(t, j);
    }
    assert PassesMasks(t, j) by {
      IndexedRow(t, j);
    }
    StoredRowCells(t, top, g, i, j);
  }

  /** Row i of a drop from indexed rows holds, under each remaining label, indexed row j's cell. */
  lemma StoredRowCells(t: Table, top: Keyed, g: Keyed, i: nat, j: nat)
    requires Loaded(t) && KeyedShaped(top) && top.columns == Indexed(t).columns
    requires DropKeyed(top, StatColumns) == Ok(g)
    requires i < |g.entries| && j < |t.rows| && top.entries[i] == Indexed(t).entries[j]
    ensures forall c :: c in g.columns ==> g.entries[i].cells[IndexOf(g.columns, c)] == CellAt(t, j, c)
  {
    var k := Indexed(t);
    forall c | c in g.columns
      ensures g.entries[i].cells[IndexOf(g.columns, c)] == CellAt(t, j, c)
    {
      assert c in k.columns;
    }
  }

  /** The stored table has min(n, number of rows passing both masks) rows. */
  lemma StoreSize(t: Table, n: nat, g: Keyed)
    requires Loaded(t) && StoreTable(t, n) == Ok(g)
    ensures |g.entries| == Min(n, |Candidates(Indexed(t).entries, PadjAt(t), FoldChangeAt(t))|)
    ensures |g.entries| <= n
  {
    StoreTableRows(t, n, TopFrame(t, n), g);
    TopIsTopN(Indexed(t).entries, PadjAt(t), FoldChangeAt(t), n);
  }

  /**
   * The stored genes are the top rows' genes in the same order, and those
   * rows ascend by padj: the store is ranked by padj before its padj
   * column is dropped.
   */
  lemma StoredInPadjOrder(t: Table, n: nat, g: Keyed)
    requires Loaded(t) && StoreTable(t, n) == Ok(g)
    ensures |g.entries| == |TopFrame(t, n).entries|
    ensures forall i :: 0 <= i < |g.entries| ==> g.entries[i].key == TopFrame(t, n).entries[i].key
    ensures forall i, j :: 0 <= i < j < |g.entries| ==>
      PadjOf(TopFrame(t, n).entries[i], PadjAt(t)) <= PadjOf(TopFrame(t, n).entries[j], PadjAt(t))
  {
    StoreTableRows(t, n, TopFrame(t, n), g);
    TopIsTopN(Indexed(t).entries, PadjAt(t), FoldChangeAt(t), n);
  }
}
