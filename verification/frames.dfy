/**
 * The slice of a pandas DataFrame that the dashboard relies on: labelled
 * columns, rows of cells, an index made from one column, dropping and
 * selecting columns by label, and the `to_dict(orient='records')` view.
 */
module Frames {

  /** A cell: a number, a text, or a missing value (pandas' NaN). */
  datatype Cell = Num(v: real) | Str(s: string) | NA

  /** The exceptions the modelled code raises. */
  datatype Error =
    | KeyError(labels: seq<string>)   // a column label that is not in the frame
    | TypeError                       // an argument of the wrong kind
    | NameError                       // a global read before any callback assigned it

  datatype Result<T> = Ok(value: T) | Err(error: Error)

  datatype Option<T> = None | Some(value: T)

  /** A frame with the default positional index. */
  datatype Table = Table(columns: seq<string>, rows: seq<seq<Cell>>)

  /** One row of a frame whose index holds gene names. */
  datatype Entry = Entry(key: string, cells: seq<Cell>)

  /** A frame whose index is the former column `indexName`. */
  datatype Keyed = Keyed(indexName: string, columns: seq<string>, entries: seq<Entry>)

  predicate Distinct<T(==)>(s: seq<T>) {
    forall i, j :: 0 <= i < j < |s| ==> s[i] != s[j]
  }

  predicate Rectangular(t: Table) {
    forall i :: 0 <= i < |t.rows| ==> |t.rows[i]| == |t.columns|
  }

  /** Unique column labels and one cell per column in every row. */
  predicate Shaped(t: Table) {
    Distinct(t.columns) && Rectangular(t)
  }

  predicate KeyedShaped(k: Keyed) {
    && Distinct(k.columns)
    && k.indexName !in k.columns
    && forall i :: 0 <= i < |k.entries| ==> |k.entries[i].cells| == |k.columns|
  }

  /** The position of the first column labelled `c`. */
  function IndexOf(cols: seq<string>, c: string): (j: nat)
    requires c in cols
    ensures j < |cols| && cols[j] == c
    ensures forall i :: 0 <= i < j ==> cols[i] != c
  {
    if cols[0] == c then 0 else 1 + IndexOf(cols[1..], c)
  }

  lemma IndexOfDistinct(cols: seq<string>, j: nat)
    requires Distinct(cols) && j < |cols|
    ensures IndexOf(cols, cols[j]) == j
  {
  }

  /** The cell in row `i` under the column labelled `c`. */
  function CellAt(t: Table, i: nat, c: string): Cell
    requires Rectangular(t) && i < |t.rows| && c in t.columns
  {
    t.rows[i][IndexOf(t.columns, c)]
  }

  /** `df[c]`: the cells under the column labelled `c`, row by row. */
  function Column(t: Table, c: string): (r: seq<Cell>)
    requires Rectangular(t) && c in t.columns
    ensures |r| == |t.rows|
    ensures forall i :: 0 <= i < |r| ==> r[i] == CellAt(t, i, c)
  {
    seq(|t.rows|, i requires 0 <= i < |t.rows| => CellAt(t, i, c))
  }

  /** The elements of `s` at the positions `at`, in that order. */
  function Pick<T>(s: seq<T>, at: seq<nat>): (r: seq<T>)
    requires forall a :: 0 <= a < |at| ==> at[a] < |s|
    ensures |r| == |at|
    ensures forall a :: 0 <= a < |at| ==> r[a] == s[at[a]]
  {
    seq(|at|, a requires 0 <= a < |at| => s[at[a]])
  }

  /** The positions, from `from` on, of the columns whose label is not in `labels`. */
  function KeepFrom(cols: seq<string>, labels: seq<string>, from: nat): (keep: seq<nat>)
    requires from <= |cols|
    ensures forall a :: 0 <= a < |keep| ==> from <= keep[a] < |cols| && cols[keep[a]] !in labels
    ensures forall a, b :: 0 <= a < b < |keep| ==> keep[a] < keep[b]
    ensures forall j :: from <= j < |cols| && cols[j] !in labels ==> j in keep
    decreases |cols| - from
  {
    if from == |cols| then []
    else if cols[from] in labels then KeepFrom(cols, labels, from + 1)
    else [from] + KeepFrom(cols, labels, from + 1)
  }

  /** The positions of the columns that survive dropping `labels`. */
  function Kept(cols: seq<string>, labels: seq<string>): seq<nat> {
    KeepFrom(cols, labels, 0)
  }

  /** The labels of `labels` that are not columns, in order. */
  function Missing(labels: seq<string>, cols: seq<string>): (m: seq<string>)
    ensures forall l :: l in m <==> l in labels && l !in cols
  {
    if labels == [] then []
    else if labels[0] in cols then Missing(labels[1..], cols)
    else [labels[0]] + Missing(labels[1..], cols)
  }

  /** Which labels are missing depends only on whether each one is a column. */
  lemma {:induction false} MissingAgree(labels: seq<string>, a: seq<string>, b: seq<string>)
    requires forall l :: l in labels ==> (l in a <==> l in b)
    ensures Missing(labels, a) == Missing(labels, b)
  {
    if labels != [] {
      assert forall l :: l in labels[1..] ==> l in labels;
      MissingAgree(labels[1..], a, b);
    }
  }

  /**
   * `DataFrame.drop(labels, axis=1)`: the positions of the remaining
   * columns, or a KeyError naming the labels that are not columns.
   */
  function Drop(cols: seq<string>, labels: seq<string>): (r: Result<seq<nat>>)
    ensures r.Err? <==> exists l :: l in labels && l !in cols
    ensures r.Err? ==> r.error == KeyError(Missing(labels, cols))
    ensures r.Ok? ==> r.value == Kept(cols, labels)
  {
    var m := Missing(labels, cols);
    if m != [] then
      assert m[0] in m;
      Err(KeyError(m))
    else Ok(Kept(cols, labels))
  }

  /** `IndexOf` without its recursion in sight, for use under quantifiers. */
  function Pos(cols: seq<string>, c: string): (j: nat)
    requires c in cols
    ensures j < |cols| && cols[j] == c
  {
    IndexOf(cols, c)
  }

  /** The labels of `sub` are labels of `cols`, in the order they have in `cols`. */
  predicate InOrder(sub: seq<string>, cols: seq<string>) {
    forall a, b :: 0 <= a < b < |sub| ==>
      sub[a] in cols && sub[b] in cols && Pos(cols, sub[a]) < Pos(cols, sub[b])
  }

  lemma InOrderTrans(x: seq<string>, y: seq<string>, z: seq<string>)
    requires InOrder(x, y) && InOrder(y, z)
    requires forall c :: c in x ==> c in y
    ensures InOrder(x, z)
  {
    forall a, b | 0 <= a < b < |x|
      ensures x[a] in z && x[b] in z && Pos(z, x[a]) < Pos(z, x[b])
    {
      assert x[a] in y && x[b] in y;
      var ia, ib := Pos(y, x[a]), Pos(y, x[b]);
      assert y[ia] == x[a] && y[ib] == x[b];
    }
  }

  /**
   * Dropping keeps the remaining labels unique and in their order, removes
   * exactly `labels`, and finds each remaining label at its old position.
   */
  lemma KeptSpec(cols: seq<string>, labels: seq<string>)
    requires Distinct(cols)
    ensures Distinct(Pick(cols, Kept(cols, labels)))
    ensures forall c :: c in Pick(cols, Kept(cols, labels)) <==> c in cols && c !in labels
    ensures forall c :: c in Pick(cols, Kept(cols, labels)) ==>
      Kept(cols, labels)[IndexOf(Pick(cols, Kept(cols, labels)), c)] == IndexOf(cols, c)
    ensures InOrder(Pick(cols, Kept(cols, labels)), cols)
  {
    var keep := Kept(cols, labels);
    var p := Pick(cols, keep);
    KeptOrder(cols, labels);
    forall c | c in cols && c !in labels
      ensures c in p
    {
      var j := IndexOf(cols, c);
      assert j in keep;
      var a :| 0 <= a < |keep| && keep[a] == j;
      assert p[a] == c;
    }
    forall c | c in p
      ensures keep[IndexOf(p, c)] == IndexOf(cols, c)
    {
      var a := IndexOf(p, c);
      IndexOfDistinct(cols, keep[a]);
    }
  }

  lemma KeptOrder(cols: seq<string>, labels: seq<string>)
    requires Distinct(cols)
    ensures InOrder(Pick(cols, Kept(cols, labels)), cols)
  {
    var keep := Kept(cols, labels);
    var p := Pick(cols, keep);
    forall a, b | 0 <= a < b < |p|
      ensures p[a] in cols && p[b] in cols && Pos(cols, p[a]) < Pos(cols, p[b])
    {
      IndexOfDistinct(cols, keep[a]);
      IndexOfDistinct(cols, keep[b]);
    }
  }

  /**
   * `df.index = df[name]; df = df.drop([name], axis=1)`: the column `name`
   * becomes the index and leaves the columns.
   */
  function SetIndex(t: Table, name: string): (k: Keyed)
    requires Shaped(t) && name in t.columns
    requires forall i :: 0 <= i < |t.rows| ==> t.rows[i][IndexOf(t.columns, name)].Str?
    ensures KeyedShaped(k) && k.indexName == name
    ensures forall c :: c in k.columns <==> c in t.columns && c != name
    ensures InOrder(k.columns, t.columns)
    ensures |k.entries| == |t.rows|
    ensures forall i :: 0 <= i < |t.rows| ==> Str(k.entries[i].key) == CellAt(t, i, name)
    ensures forall i, c :: 0 <= i < |t.rows| && c in k.columns ==>
      k.entries[i].cells[IndexOf(k.columns, c)] == CellAt(t, i, c)
  {
    KeptSpec(t.columns, [name]);
    var g := IndexOf(t.columns, name);
    var keep := Kept(t.columns, [name]);
    Keyed(name, Pick(t.columns, keep),
          seq(|t.rows|, i requires 0 <= i < |t.rows| => Entry(t.rows[i][g].s, Pick(t.rows[i], keep))))
  }

  /** Rows taken from a frame fit that frame's columns. */
  lemma RowsOfFrame(k: Keyed, es: seq<Entry>)
    requires KeyedShaped(k)
    requires forall e :: e in es ==> e in k.entries
    ensures KeyedShaped(Keyed(k.indexName, k.columns, es))
  {
    forall i | 0 <= i < |es|
      ensures |es[i].cells| == |k.columns|
    {
      assert es[i] in k.entries;
    }
  }

  /**
   * `drop(labels, axis=1)` on a frame indexed by a column: the frame
   * without those columns, or the KeyError naming the absent ones.
   */
  function DropKeyed(k: Keyed, labels: seq<string>): (r: Result<Keyed>)
    requires KeyedShaped(k)
    ensures r.Err? <==> exists l :: l in labels && l !in k.columns
    ensures r.Err? ==> r.error == KeyError(Missing(labels, k.columns))
    ensures r.Ok? ==>
      && KeyedShaped(r.value)
      && r.value.indexName == k.indexName
      && (forall c :: c in r.value.columns <==> c in k.columns && c !in labels)
      && InOrder(r.value.columns, k.columns)
      && |r.value.entries| == |k.entries|
      && (forall i :: 0 <= i < |k.entries| ==> r.value.entries[i].key == k.entries[i].key)
      && (forall i, c :: 0 <= i < |k.entries| && c in r.value.columns ==>
            r.value.entries[i].cells[IndexOf(r.value.columns, c)] == k.entries[i].cells[IndexOf(k.columns, c)])
  {
    match Drop(k.columns, labels)
    case Err(e) => Err(e)
    case Ok(keep) =>
      KeptSpec(k.columns, labels);
      Ok(Keyed(k.indexName, Pick(k.columns, keep),
               seq(|k.entries|, i requires 0 <= i < |k.entries| => Entry(k.entries[i].key, Pick(k.entries[i].cells, keep)))))
  }

  /** `reset_index()`: the index goes back in as the first column. */
  function ResetIndex(k: Keyed): (t: Table)
    requires KeyedShaped(k)
    ensures Shaped(t) && t.columns == [k.indexName] + k.columns
    ensures |t.rows| == |k.entries|
    ensures forall i :: 0 <= i < |t.rows| ==> CellAt(t, i, k.indexName) == Str(k.entries[i].key)
    ensures forall i, c :: 0 <= i < |t.rows| && c in k.columns ==>
      CellAt(t, i, c) == k.entries[i].cells[IndexOf(k.columns, c)]
  {
    var t := Table([k.indexName] + k.columns,
                   seq(|k.entries|, i requires 0 <= i < |k.entries| => [Str(k.entries[i].key)] + k.entries[i].cells));
    forall c | c in k.columns
      ensures IndexOf(t.columns, c) == 1 + IndexOf(k.columns, c)
    {
      IndexOfDistinct(t.columns, 1 + IndexOf(k.columns, c));
    }
    t
  }

  lemma {:induction false} KeepAfterFirst(cols: seq<string>, name: string, from: nat)
    requires 1 <= from <= |cols| && Distinct(cols) && cols[0] == name
    ensures |KeepFrom(cols, [name], from)| == |cols| - from
    ensures forall a :: 0 <= a < |cols| - from ==> KeepFrom(cols, [name], from)[a] == from + a
    decreases |cols| - from
  {
    if from < |cols| {
      assert cols[from] !in [name] by { assert cols[0] != cols[from]; }
      KeepAfterFirst(cols, name, from + 1);
      var rest := KeepFrom(cols, [name], from + 1);
      assert KeepFrom(cols, [name], from) == [from] + rest;
    }
  }

  /** With the index first, every other column is kept, in order. */
  lemma KeptAfterIndex(cols: seq<string>, name: string)
    requires 1 <= |cols| && Distinct(cols) && cols[0] == name
    ensures |Kept(cols, [name])| == |cols| - 1
    ensures forall a :: 0 <= a < |cols| - 1 ==> Kept(cols, [name])[a] == 1 + a
  {
    assert Kept(cols, [name]) == KeepFrom(cols, [name], 1);
    KeepAfterFirst(cols, name, 1);
  }

  lemma PickTail<T>(s: seq<T>, keep: seq<nat>)
    requires 1 <= |s| && |keep| == |s| - 1
    requires forall a :: 0 <= a < |keep| ==> keep[a] == 1 + a
    ensures Pick(s, keep) == s[1..]
  {
  }

  /** Moving the index into a column and back again gives the same frame. */
  lemma {:induction false} SetIndexResetIndex(k: Keyed)
    requires KeyedShaped(k)
    ensures SetIndex(ResetIndex(k), k.indexName) == k
  {
    var t := ResetIndex(k);
    assert IndexOf(t.columns, k.indexName) == 0;
    KeptAfterIndex(t.columns, k.indexName);
    var keep := Kept(t.columns, [k.indexName]);
    PickTail(t.columns, keep);
    var s := SetIndex(t, k.indexName);
    assert s.columns == k.columns;
    forall i | 0 <= i < |k.entries|
      ensures s.entries[i] == k.entries[i]
    {
      PickTail(t.rows[i], keep);
      assert s.entries[i].cells == Pick(t.rows[i], keep);
    }
  }

  /**
   * `to_dict(orient='records')`: one dictionary per row from column label
   * to cell; the index is not part of it.
   */
  function Records(k: Keyed): (r: seq<map<string, Cell>>)
    requires KeyedShaped(k)
    ensures |r| == |k.entries|
    ensures forall i :: 0 <= i < |r| ==> r[i].Keys == set c | c in k.columns
    ensures forall i, j :: 0 <= i < |r| && 0 <= j < |k.columns| ==> r[i][k.columns[j]] == k.entries[i].cells[j]
  {
    var r := seq(|k.entries|, i requires 0 <= i < |k.entries| =>
                   map c | c in k.columns :: k.entries[i].cells[IndexOf(k.columns, c)]);
    forall j | 0 <= j < |k.columns| {
      IndexOfDistinct(k.columns, j);
    }
    r
  }

  /** One block of the long form: every row's id, the label of column `v`, and its value. */
  function MeltBlock(t: Table, g: nat, v: nat): (r: seq<seq<Cell>>)
    requires Rectangular(t) && g < |t.columns| && v < |t.columns|
    ensures |r| == |t.rows|
    ensures forall i :: 0 <= i < |t.rows| ==> r[i] == [t.rows[i][g], Str(t.columns[v]), t.rows[i][v]]
  {
    seq(|t.rows|, i requires 0 <= i < |t.rows| => [t.rows[i][g], Str(t.columns[v]), t.rows[i][v]])
  }

  /** The blocks of the value columns at positions `at`, one after the other. */
  function MeltRows(t: Table, g: nat, at: seq<nat>): (r: seq<seq<Cell>>)
    requires Rectangular(t) && g < |t.columns|
    requires forall a :: 0 <= a < |at| ==> at[a] < |t.columns|
    ensures |r| == |at| * |t.rows|
  {
    if at == [] then []
    else MeltBlock(t, g, at[0]) + MeltRows(t, g, at[1..])
  }

  lemma MulStep(j: nat, m: nat, i: nat)
    requires j > 0
    ensures j * m + i == m + ((j - 1) * m + i)
  {
  }

  lemma MulBound(j: nat, k: nat, m: nat, i: nat)
    requires j < k && i < m
    ensures 0 <= j * m + i < k * m
  {
    assert j * m <= (k - 1) * m;
  }

  /** Row `k = j * |rows| + i` of the long form comes from row `i` and value column `j`. */
  lemma {:induction false} MeltRowsAt(t: Table, g: nat, at: seq<nat>, j: nat, i: nat, k: nat)
    requires Rectangular(t) && g < |t.columns|
    requires forall a :: 0 <= a < |at| ==> at[a] < |t.columns|
    requires j < |at| && i < |t.rows| && k == j * |t.rows| + i
    ensures k < |MeltRows(t, g, at)|
    ensures MeltRows(t, g, at)[k] == [t.rows[i][g], Str(t.columns[at[j]]), t.rows[i][at[j]]]
  {
    var m := |t.rows|;
    MulBound(j, |at|, m, i);
    var block, rest := MeltBlock(t, g, at[0]), MeltRows(t, g, at[1..]);
    assert MeltRows(t, g, at) == block + rest;
    if j > 0 {
      MulStep(j, m, i);
      MeltRowsAt(t, g, at[1..], j - 1, i, k - m);
      assert (block + rest)[k] == rest[k - m];
    }
  }

  /** Every row of the long form carries the id of some row of the wide form. */
  lemma {:induction false} MeltRowsIds(t: Table, g: nat, at: seq<nat>)
    requires Rectangular(t) && g < |t.columns|
    requires forall a :: 0 <= a < |at| ==> at[a] < |t.columns|
    ensures forall r :: r in MeltRows(t, g, at) ==> |r| == 3 && exists i :: 0 <= i < |t.rows| && r[0] == t.rows[i][g]
  {
    if at != [] {
      MeltRowsIds(t, g, at[1..]);
      forall r | r in MeltBlock(t, g, at[0])
        ensures |r| == 3 && exists i :: 0 <= i < |t.rows| && r[0] == t.rows[i][g]
      {
        var i :| 0 <= i < |t.rows| && MeltBlock(t, g, at[0])[i] == r;
      }
    }
  }

  /** The value columns of a melt: every column except the id column, in order. */
  function ValueColumns(t: Table, id: string): seq<string>
    requires Shaped(t)
  {
    Pick(t.columns, Kept(t.columns, [id]))
  }

  /**
   * `melt(id_vars=[id], var_name=..., value_name=...)`: wide to long, one
   * block per value column in column order, each block listing the rows
   * in order; a KeyError when `id` is not a column.
   */
  function Melt(t: Table, id: string, varName: string, valueName: string): (r: Result<Table>)
    requires Shaped(t)
    ensures r.Err? <==> id !in t.columns
    ensures r.Err? ==> r.error == KeyError([id])
    ensures r.Ok? ==>
      && r.value.columns == [id, varName, valueName]
      && |r.value.rows| == |ValueColumns(t, id)| * |t.rows|
  {
    if id !in t.columns then Err(KeyError([id]))
    else Ok(Table([id, varName, valueName], MeltRows(t, IndexOf(t.columns, id), Kept(t.columns, [id]))))
  }

  /**
   * Row `k = j * |rows| + i` of the long form is row `i`'s id, the label
   * of value column `j`, and row `i`'s cell under that column.
   */
  lemma {:induction false} MeltAt(t: Table, id: string, varName: string, valueName: string, m: Table, j: nat, i: nat, k: nat)
    requires Shaped(t) && Melt(t, id, varName, valueName) == Ok(m)
    requires j < |ValueColumns(t, id)| && i < |t.rows| && k == j * |t.rows| + i
    ensures ValueColumns(t, id)[j] in t.columns
    ensures k < |m.rows|
    ensures m.rows[k] == [CellAt(t, i, id), Str(ValueColumns(t, id)[j]), CellAt(t, i, ValueColumns(t, id)[j])]
  {
    var g, at := IndexOf(t.columns, id), Kept(t.columns, [id]);
    var c := t.columns[at[j]];
    assert m.rows == MeltRows(t, g, at);
    assert ValueColumns(t, id)[j] == c;
    assert k < |m.rows| && m.rows[k] == [t.rows[i][g], Str(c), t.rows[i][at[j]]] by {
      MeltRowsAt(t, g, at, j, i, k);
    }
    assert CellAt(t, i, c) == t.rows[i][at[j]] by {
      IndexOfDistinct(t.columns, at[j]);
    }
  }

  /** Every row of the long form is an (id, column, value) triple whose id is that of some row. */
  lemma {:induction false} MeltIds(t: Table, id: string, varName: string, valueName: string, m: Table)
    requires Shaped(t) && Melt(t, id, varName, valueName) == Ok(m)
    ensures Rectangular(m)
    ensures forall row :: row in m.rows ==> exists i :: 0 <= i < |t.rows| && row[0] == CellAt(t, i, id)
  {
    var g, at := IndexOf(t.columns, id), Kept(t.columns, [id]);
    var rows := MeltRows(t, g, at);
    assert m.rows == rows;
    MeltRowsIds(t, g, at);
    forall row | row in rows
      ensures exists i :: 0 <= i < |t.rows| && row[0] == CellAt(t, i, id)
    {
      var i :| 0 <= i < |t.rows| && row[0] == t.rows[i][g];
      assert row[0] == CellAt(t, i, id);
    }
  }
}
