/**
 * The differential-expression table the dashboard loads once at start-up:
 * its column labels and what a loaded table looks like.
 */
module Schema {
  import opened Frames

  const GeneName := "GENENAME"
  const Symbol := "SYMBOL"
  const AltName := "GENENAME.1"
  const FoldChange := "log2FoldChange"
  const Padj := "padj"
  const AnnotationColumn := "ANOT"

  /** The columns the display table keeps, in this order. */
  const DisplayColumns: seq<string> := [GeneName, Symbol, AltName, FoldChange, Padj]

  /** The statistics and annotation columns the top-genes table drops. */
  const StatColumns: seq<string> := ["baseMean", FoldChange, "lfcSE", "stat", "pvalue", Padj, Symbol, AltName]

  /** The index column is not among the dropped ones. */
  lemma GeneNameKept()
    ensures GeneName !in StatColumns
  {
    assert GeneName[0] == 'G' && "baseMean"[0] == 'b';
    assert |GeneName| == 8;
  }

  /** The display columns and the annotation column are different labels. */
  lemma DisplayLabelsDistinct()
    ensures Distinct(DisplayColumns + [AnnotationColumn])
  {
    assert |GeneName| == 8 && |Symbol| == 6 && |AltName| == 10 && |FoldChange| == 14;
    assert |Padj| == 4 && |AnnotationColumn| == 4 && Padj[0] != AnnotationColumn[0];
  }

  /** What a column holds: text, text or missing, number or missing. */
  datatype Kind = Text | OptionalText | Number

  predicate Fits(c: Cell, k: Kind) {
    match k
    case Text => c.Str?
    case OptionalText => !c.Num?
    case Number => !c.Str?
  }

  predicate ColumnFits(t: Table, c: string, k: Kind)
    requires Rectangular(t)
  {
    c in t.columns ==> forall i :: 0 <= i < |t.rows| ==> Fits(CellAt(t, i, c), k)
  }

  /** Gene names are text, annotations text or missing, statistics numbers or missing. */
  predicate Typed(t: Table)
    requires Rectangular(t)
  {
    && ColumnFits(t, GeneName, Text)
    && ColumnFits(t, Symbol, OptionalText)
    && ColumnFits(t, AltName, OptionalText)
    && ColumnFits(t, FoldChange, Number)
    && ColumnFits(t, Padj, Number)
  }

  /**
   * A table as it stands once start-up has succeeded: unique labels (the
   * reader renames a repeated header, hence "GENENAME.1"), typed columns,
   * and the display columns present (selecting them aborts start-up otherwise).
   */
  predicate Loaded(t: Table) {
    && Shaped(t)
    && Typed(t)
    && GeneName in t.columns && Symbol in t.columns && AltName in t.columns
    && FoldChange in t.columns && Padj in t.columns
  }
}
