/**
 * The gene dropdown's choices (the `options` callback): the stored top
 * genes with their index put back as the GENENAME column, and one option
 * per distinct gene name, in ascending order, showing the name and
 * carrying it as its value.
 */
module GeneSelector {
  import opened Frames
  import opened Sequences
  import opened Schema

  /** `{'label': l, 'value': l}`: the text shown (`label`) and the value selected. */
  datatype DropdownOption = DropdownOption(caption: string, value: string)

  /** A table with a GENENAME column holding a text in every row. */
  predicate NamedRows(t: Table) {
    && Shaped(t)
    && GeneName in t.columns
    && forall i :: 0 <= i < |t.rows| ==> CellAt(t, i, GeneName).Str?
  }

  /** The GENENAME column as texts. */
  function GeneNames(t: Table): (r: seq<string>)
    requires NamedRows(t)
    ensures |r| == |t.rows|
    ensures forall i :: 0 <= i < |t.rows| ==> CellAt(t, i, GeneName) == Str(r[i])
  {
    seq(|t.rows|, i requires 0 <= i < |t.rows| => CellAt(t, i, GeneName).s)
  }

  function Values(opts: seq<DropdownOption>): (r: seq<string>)
    ensures |r| == |opts|
    ensures forall i :: 0 <= i < |opts| ==> r[i] == opts[i].value
  {
    seq(|opts|, i requires 0 <= i < |opts| => opts[i].value)
  }

  /**
   * `sort_values('GENENAME')['GENENAME'].unique()` turned into options:
   * label and value agree, the values ascend strictly (so no gene is
   * offered twice), and a name is offered exactly when some row has it.
   */
  function GeneOptions(t: Table): (r: seq<DropdownOption>)
    requires NamedRows(t)
    ensures forall o :: o in r ==> o.caption == o.value
    ensures StrictlyAscending(Values(r))
    ensures forall x :: x in Values(r) <==> exists i :: 0 <= i < |t.rows| && CellAt(t, i, GeneName) == Str(x)
  {
    var names := GeneNames(t);
    var u := SortedUnique(names);
    var r := seq(|u|, i requires 0 <= i < |u| => DropdownOption(u[i], u[i]));
    assert Values(r) == u;
    assert forall x :: x in names <==> exists i :: 0 <= i < |t.rows| && CellAt(t, i, GeneName) == Str(x) by {
      forall x | x in names
        ensures exists i :: 0 <= i < |t.rows| && CellAt(t, i, GeneName) == Str(x)
      {
        var i :| 0 <= i < |names| && names[i] == x;
      }
    }
    r
  }

  /**
   * The options are the only possible ones: any strictly ascending list of
   * exactly the gene names in the table is the list of option values.
   */
  lemma OptionsAreDetermined(t: Table, xs: seq<string>)
    requires NamedRows(t) && StrictlyAscending(xs)
    requires forall x :: x in xs <==> exists i :: 0 <= i < |t.rows| && CellAt(t, i, GeneName) == Str(x)
    ensures xs == Values(GeneOptions(t))
  {
    AscendingUnique(xs, Values(GeneOptions(t)));
  }

  /**
   * The options built from the stored frame after `reset_index()` offer
   * exactly the gene names that index the stored frame.
   */
  lemma {:induction false} OptionsOfStore(k: Keyed)
    requires KeyedShaped(k) && k.indexName == GeneName
    ensures NamedRows(ResetIndex(k))
    ensures forall x :: x in Values(GeneOptions(ResetIndex(k))) <==> exists i :: 0 <= i < |k.entries| && k.entries[i].key == x
  {
    var t := ResetIndex(k);
    assert forall i :: 0 <= i < |t.rows| ==> CellAt(t, i, GeneName) == Str(k.entries[i].key);
  }
}
