/** The slice of a pandas DataFrame that the cleaning pipeline touches: a list of column
    labels, a row index and rows of cells, plus the failures the pipeline can raise. */
module Frames {

  datatype Option<+T> = None | Some(value: T)

  /** Every way the pipeline stops early. `InvalidMode` is the diagnostic plus `sys.exit(1)`;
      the others are the exceptions pandas or Python raise. */
  datatype Error =
    | InvalidMode(mode: int)              // mode is neither 2 nor 4
    | EmptyTable                          // `iloc[0]` of a table without rows
    | NoColumns                           // `columns[0]` of a table without columns
    | AmbiguousColumn(column: string)     // the compound label names several columns, so no `.str`
    | HeaderNotCompound(column: string)   // the compound label has no joining glyph
    | SplitWidth(width: nat)              // the split did not yield exactly two columns
    | MissingColumn(column: string)       // `KeyError` on a label lookup
    | LabelsNotFound(columns: seq<string>)// `KeyError` from `drop`, naming the absent labels
    | MissingValue(column: string)        // `' ' in None`

  datatype Result<+T> = Ok(value: T) | Err(error: Error) {
    predicate IsFailure() {
      Err?
    }

    function PropagateFailure<U>(): Result<U>
      requires Err?
    {
      Err(error)
    }

    function Extract(): T
      requires Ok?
    {
      value
    }
  }

  /** A cell after the compound split: text, or the padding pandas puts where a split yields fewer pieces. */
  datatype Cell = Present(text: string) | Missing

  /** `astype(str)`: missing padding prints as `None`. */
  function AsText(c: Cell): (t: string)
    ensures c.Present? ==> t == c.text
    ensures c.Missing? ==> t == "None"
  {
    match c
    case Present(t) => t
    case Missing => "None"
  }

  /** Wraps every string as a present cell. */
  function Presents(s: seq<string>): (r: seq<Cell>)
    ensures |r| == |s| && forall j :: 0 <= j < |s| ==> r[j] == Present(s[j])
  {
    seq(|s|, j requires 0 <= j < |s| => Present(s[j]))
  }

  /** A table: column labels, the row index labels and the rows. */
  datatype Frame<C> = Frame(columns: seq<string>, index: seq<int>, rows: seq<seq<C>>) {
    /** Rectangular, one index label per row. */
    predicate Valid() {
      |index| == |rows| && forall i :: 0 <= i < |rows| ==> |rows[i]| == |columns|
    }
  }

  /** Position of the first column carrying `name`. */
  function IndexOf(labels: seq<string>, name: string): (r: Option<nat>)
    ensures r.None? <==> name !in labels
    ensures r.Some? ==> r.value < |labels| && labels[r.value] == name && name !in labels[..r.value]
  {
    if |labels| == 0 then None
    else if labels[0] == name then Some(0)
    else
      match IndexOf(labels[1..], name)
      case None => None
      case Some(k) =>
        assert labels[..k + 1] == [labels[0]] + labels[1..][..k];
        Some(k + 1)
  }

  /** A position holding `name` with no earlier `name` is the one `IndexOf` finds. */
  lemma IndexOfUnique(labels: seq<string>, name: string, k: nat)
    requires k < |labels| && labels[k] == name && name !in labels[..k]
    ensures IndexOf(labels, name) == Some(k)
  {
    var k' := IndexOf(labels, name).value;
    assert k' <= k by {
      assert forall j :: 0 <= j < k' ==> labels[..k'][j] == labels[j];
    }
    assert k <= k' by {
      assert forall j :: 0 <= j < k ==> labels[..k][j] == labels[j];
    }
  }

  /** A label keeps its first position when more labels are appended. */
  lemma IndexOfExtended(labels: seq<string>, more: seq<string>, name: string)
    requires name in labels
    ensures IndexOf(labels + more, name) == IndexOf(labels, name)
  {
    var k := IndexOf(labels, name).value;
    assert (labels + more)[..k] == labels[..k];
    IndexOfUnique(labels + more, name, k);
  }

  /** In labels without duplicates, each label is found at its own position. */
  lemma IndexOfDistinct(labels: seq<string>, k: nat)
    requires k < |labels|
    requires forall i, j :: 0 <= i < j < |labels| ==> labels[i] != labels[j]
    ensures IndexOf(labels, labels[k]) == Some(k)
  {
    assert forall i :: 0 <= i < k ==> labels[..k][i] == labels[i];
    IndexOfUnique(labels, labels[k], k);
  }

  /** A label appended to labels that lack it is found at the end. */
  lemma IndexOfAppended(labels: seq<string>, name: string)
    requires name !in labels
    ensures IndexOf(labels + [name], name) == Some(|labels|)
  {
    assert (labels + [name])[..|labels|] == labels;
    IndexOfUnique(labels + [name], name, |labels|);
  }

  /** Picking increasing positions that include a label's first position finds the label
      at that position. */
  lemma IndexOfPicked(labels: seq<string>, ks: seq<nat>, name: string)
    requires forall j :: 0 <= j < |ks| ==> ks[j] < |labels|
    requires forall j, k :: 0 <= j < k < |ks| ==> ks[j] < ks[k]
    requires name in labels && IndexOf(labels, name).value in ks
    ensures name in Pick(labels, ks)
    ensures ks[IndexOf(Pick(labels, ks), name).value] == IndexOf(labels, name).value
  {
    var p := IndexOf(labels, name).value;
    var picked := Pick(labels, ks);
    var m :| 0 <= m < |ks| && ks[m] == p;
    assert picked[m] == name;
    assert name !in picked[..m] by {
      forall j | 0 <= j < m ensures picked[..m][j] != name {
        assert labels[..p][ks[j]] == labels[ks[j]];
      }
    }
    IndexOfUnique(picked, name, m);
  }

  /** The cell of row `i` under the label `name` (its first column, as a lookup by label gives). */
  function At<C>(f: Frame<C>, i: nat, name: string): C
    requires f.Valid() && i < |f.rows| && name in f.columns
  {
    f.rows[i][IndexOf(f.columns, name).value]
  }

  /** The positions of `s` whose element satisfies `keep`, in increasing order: a boolean mask. */
  function Where<T>(s: seq<T>, keep: T -> bool): (ks: seq<nat>)
    ensures forall j :: 0 <= j < |ks| ==> ks[j] < |s| && keep(s[ks[j]])
    ensures forall j, k :: 0 <= j < k < |ks| ==> ks[j] < ks[k]
    ensures forall i :: 0 <= i < |s| && keep(s[i]) ==> i in ks
  {
    if |s| == 0 then []
    else
      var ks := Where(s[..|s| - 1], keep);
      if keep(s[|s| - 1]) then ks + [|s| - 1] else ks
  }

  /** The elements of `s` at the positions `ks`. */
  function Pick<T>(s: seq<T>, ks: seq<nat>): (r: seq<T>)
    requires forall j :: 0 <= j < |ks| ==> ks[j] < |s|
    ensures |r| == |ks| && forall j :: 0 <= j < |ks| ==> r[j] == s[ks[j]]
  {
    seq(|ks|, j requires 0 <= j < |ks| => s[ks[j]])
  }

  /** Positions that lie in `s` pick the same elements from any extension of `s`. */
  lemma PickExtended<T>(s: seq<T>, more: seq<T>, ks: seq<nat>)
    requires forall j :: 0 <= j < |ks| ==> ks[j] < |s|
    ensures Pick(s + more, ks) == Pick(s, ks)
  {
  }

  /** One more position picks one more element. */
  lemma PickOneMore<T>(s: seq<T>, ks: seq<nat>, k: nat)
    requires k < |s| && forall j :: 0 <= j < |ks| ==> ks[j] < |s|
    ensures Pick(s, ks + [k]) == Pick(s, ks) + [s[k]]
  {
  }

  /** The elements of `s` that satisfy `keep`, in their order. */
  function Filter<T>(s: seq<T>, keep: T -> bool): (r: seq<T>)
    ensures |r| <= |s|
    ensures forall j :: 0 <= j < |r| ==> r[j] in s && keep(r[j])
    ensures forall i :: 0 <= i < |s| && keep(s[i]) ==> s[i] in r
  {
    if |s| == 0 then []
    else (if keep(s[0]) then [s[0]] else []) + Filter(s[1..], keep)
  }

  /** Filtering a sequence filters its first element on its own. */
  lemma FilterCons<T>(x: T, rest: seq<T>, keep: T -> bool)
    ensures Filter([x] + rest, keep) == (if keep(x) then [x] else []) + Filter(rest, keep)
  {
    assert ([x] + rest)[1..] == rest;
  }

  /** Filtering a longer sequence filters the extra element on its own. */
  lemma {:induction false} FilterAppend<T>(s: seq<T>, x: T, keep: T -> bool)
    ensures Filter(s + [x], keep) == Filter(s, keep) + (if keep(x) then [x] else [])
    decreases |s|
  {
    if |s| == 0 {
      assert s + [x] == [x];
      assert Filter([x][1..], keep) == [];
    } else {
      assert (s + [x])[1..] == s[1..] + [x];
      FilterAppend(s[1..], x, keep);
    }
  }

  /** Picking the positions a mask selects gives the filtered sequence. */
  lemma {:induction false} PickWhere<T>(s: seq<T>, keep: T -> bool)
    ensures Pick(s, Where(s, keep)) == Filter(s, keep)
    decreases |s|
  {
    if |s| > 0 {
      var n := |s| - 1;
      var front := s[..n];
      var ks := Where(front, keep);
      PickWhere(front, keep);
      assert s == front + [s[n]];
      PickExtended(front, [s[n]], ks);
      FilterAppend(front, s[n], keep);
      if keep(s[n]) {
        PickOneMore(s, ks, n);
      }
    }
  }
}
