/** `get_stock_symbols` (getStockList.py): both registry tables cleaned, filtered to
    ordinary shares, trimmed, renamed, given the market-data provider's ticker, and stacked.
    The rate-limited session is not modelled; the two fetched tables are inputs. */
module Symbols {
  import opened Strings
  import opened Frames
  import opened Crawler

  /** The classification code of ordinary shares. */
  const EquityCode: string := "ESVUFR"
  const DroppedLabels: seq<string> := [IsinLabel, ListingDateLabel, CodeLabel, RemarksLabel]
  const Renaming: map<string, string> :=
    map[SymbolLabel := "symbol", NameLabel := "name", MarketLabel := "market", IndustryLabel := "industry"]
  const SymbolColumn: string := "symbol"
  const ProviderColumn: string := "yf_symbol"
  /** The header of the finished list. */
  const OutputHeader: seq<string> := ["symbol", "name", "market", "industry", "yf_symbol"]
  /** The page labels the drop keeps, in the order the rename maps onto `OutputHeader`. */
  const KeptPageLabels: seq<string> := [SymbolLabel, NameLabel, MarketLabel, IndustryLabel]
  const TseSuffix: string := ".TW"
  const OtcSuffix: string := ".TWO"

  /** The positions of the rows whose classification code is the equity code. */
  function EquityPositions(f: Frame<Cell>): (ks: seq<nat>)
    requires f.Valid() && CodeLabel in f.columns
    ensures forall j :: 0 <= j < |ks| ==> ks[j] < |f.rows| && At(f, ks[j], CodeLabel) == Present(EquityCode)
    ensures forall j, k :: 0 <= j < k < |ks| ==> ks[j] < ks[k]
    ensures forall i :: 0 <= i < |f.rows| && At(f, i, CodeLabel) == Present(EquityCode) ==> i in ks
  {
    var c := IndexOf(f.columns, CodeLabel).value;
    Where(f.rows, (row: seq<Cell>) => c < |row| && row[c] == Present(EquityCode))
  }

  /** `table[table['CFICode'] == 'ESVUFR']`: the equity rows with their index labels, in order. */
  function FilterEquity(f: Frame<Cell>): (r: Result<Frame<Cell>>)
    requires f.Valid()
    ensures r.Err? <==> CodeLabel !in f.columns
    ensures r.Err? ==> r.error == MissingColumn(CodeLabel)
    ensures r.Ok? ==>
      var ks := EquityPositions(f);
      r.value.Valid() && r.value.columns == f.columns
      && r.value.rows == Pick(f.rows, ks) && r.value.index == Pick(f.index, ks)
  {
    if CodeLabel !in f.columns then Err(MissingColumn(CodeLabel))
    else
      var ks := EquityPositions(f);
      Ok(Frame(f.columns, Pick(f.index, ks), Pick(f.rows, ks)))
  }

  /** The filter keeps exactly the equity rows: every kept row carries the equity code, and
      every input row that carries it is kept, with its index label. */
  lemma FilterKeepsExactlyEquityRows(f: Frame<Cell>)
    requires f.Valid() && CodeLabel in f.columns
    ensures var g := FilterEquity(f).value;
      (forall j :: 0 <= j < |g.rows| ==> At(g, j, CodeLabel) == Present(EquityCode))
      && forall i :: 0 <= i < |f.rows| && At(f, i, CodeLabel) == Present(EquityCode) ==>
           exists j :: 0 <= j < |g.rows| && g.rows[j] == f.rows[i] && g.index[j] == f.index[i]
  {
    var g := FilterEquity(f).value;
    var ks := EquityPositions(f);
    forall i | 0 <= i < |f.rows| && At(f, i, CodeLabel) == Present(EquityCode)
      ensures exists j :: 0 <= j < |g.rows| && g.rows[j] == f.rows[i] && g.index[j] == f.index[i]
    {
      var j :| 0 <= j < |ks| && ks[j] == i;
      assert g.rows[j] == f.rows[i];
    }
  }

  /** The labels of `columns` that `dropped` does not list, in their order. It is
      `Filter` with "not listed" as the test (`WithoutIsFilter`), written out without a
      function value so that proofs about concrete headers unfold it cheaply. */
  function Without(columns: seq<string>, dropped: seq<string>): (r: seq<string>)
    ensures |r| <= |columns|
  {
    if |columns| == 0 then []
    else (if columns[0] in dropped then [] else [columns[0]]) + Without(columns[1..], dropped)
  }

  /** `Without` keeps exactly the labels of `columns` that `dropped` does not list. */
  lemma {:induction false} WithoutMembers(columns: seq<string>, dropped: seq<string>)
    ensures forall l :: l in Without(columns, dropped) <==> l in columns && l !in dropped
    decreases |columns|
  {
    if |columns| > 0 {
      WithoutMembers(columns[1..], dropped);
      assert columns == [columns[0]] + columns[1..];
    }
  }

  /** A label `Without` keeps was present and not listed. */
  lemma WithoutMember(columns: seq<string>, dropped: seq<string>, l: string)
    requires l in Without(columns, dropped)
    ensures l in columns && l !in dropped
  {
    WithoutMembers(columns, dropped);
  }

  /** `Without` is the generic order-keeping filter with "not dropped" as its test. */
  lemma {:induction false} WithoutIsFilter(columns: seq<string>, dropped: seq<string>)
    ensures Without(columns, dropped) == Filter(columns, (c: string) => c !in dropped)
    decreases |columns|
  {
    if |columns| > 0 {
      WithoutIsFilter(columns[1..], dropped);
    }
  }

  /** Picking the positions of the labels not dropped gives `Without`. */
  lemma PickWithout(columns: seq<string>, labels: seq<string>)
    ensures Pick(columns, Where(columns, (c: string) => c !in labels)) == Without(columns, labels)
  {
    PickWhere(columns, (c: string) => c !in labels);
    WithoutIsFilter(columns, labels);
  }

  /** The table without the columns carrying one of `labels`; the others stay in their order
      with their cells (see `DropKeepsOtherColumns`). */
  function Remaining(f: Frame<Cell>, labels: seq<string>): (g: Frame<Cell>)
    requires f.Valid()
    ensures g.Valid() && g.index == f.index && |g.rows| == |f.rows|
    ensures g.columns == Without(f.columns, labels)
  {
    var kept := Where(f.columns, (c: string) => c !in labels);
    PickWithout(f.columns, labels);
    Frame(Pick(f.columns, kept), f.index,
          seq(|f.rows|, i requires 0 <= i < |f.rows| => Pick(f.rows[i], kept)))
  }

  /** `drop(columns=labels)`: fails naming the absent labels, in the order listed, if any is
      absent; otherwise every column carrying one of the labels goes and the others stay in
      their order. */
  function DropColumns(f: Frame<Cell>, labels: seq<string>): (r: Result<Frame<Cell>>)
    requires f.Valid()
    ensures r.Err? <==> exists l :: l in labels && l !in f.columns
    ensures r.Err? ==>
      r.error.LabelsNotFound? && forall l :: l in r.error.columns <==> l in labels && l !in f.columns
    ensures r.Ok? ==> r.value.Valid() && r.value.index == f.index && |r.value.rows| == |f.rows|
    ensures r.Ok? ==> r.value.columns == Without(f.columns, labels)
  {
    var missing := Without(labels, f.columns);
    WithoutMembers(labels, f.columns);
    if |missing| > 0 then
      assert missing[0] in labels && missing[0] !in f.columns;
      Err(LabelsNotFound(missing))
    else
      Ok(Remaining(f, labels))
  }

  /** After a drop the table holds exactly the labels not dropped, and every remaining label
      keeps its cells. */
  lemma DropKeepsOtherColumns(f: Frame<Cell>, labels: seq<string>)
    requires f.Valid() && DropColumns(f, labels).Ok?
    ensures var g := DropColumns(f, labels).value;
      (forall l :: l in g.columns <==> l in f.columns && l !in labels)
      && forall i, l :: 0 <= i < |f.rows| && l in g.columns ==> At(g, i, l) == At(f, i, l)
  {
    KeptLabels(f, labels, Where(f.columns, (c: string) => c !in labels));
  }

  /** The kept positions of a drop hold exactly the labels not dropped, and each kept label's
      cells are the ones it had. */
  lemma KeptLabels(f: Frame<Cell>, labels: seq<string>, kept: seq<nat>)
    requires f.Valid()
    requires kept == Where(f.columns, (c: string) => c !in labels)
    ensures var cols := Pick(f.columns, kept);
      (forall l :: l in cols <==> l in f.columns && l !in labels)
      && forall i, l :: 0 <= i < |f.rows| && l in cols ==>
           Pick(f.rows[i], kept)[IndexOf(cols, l).value] == At(f, i, l)
  {
    var cols := Pick(f.columns, kept);
    forall l | l in f.columns && l !in labels ensures l in cols {
      IndexOfPicked(f.columns, kept, l);
    }
    forall i, l | 0 <= i < |f.rows| && l in cols
      ensures Pick(f.rows[i], kept)[IndexOf(cols, l).value] == At(f, i, l)
    {
      KeptCell(f, labels, kept, i, l);
    }
  }

  /** One kept label's cell in one row. */
  lemma KeptCell(f: Frame<Cell>, labels: seq<string>, kept: seq<nat>, i: nat, l: string)
    requires f.Valid() && i < |f.rows|
    requires kept == Where(f.columns, (c: string) => c !in labels)
    requires l in Pick(f.columns, kept)
    ensures Pick(f.rows[i], kept)[IndexOf(Pick(f.columns, kept), l).value] == At(f, i, l)
  {
    var cols := Pick(f.columns, kept);
    var m :| 0 <= m < |kept| && cols[m] == l;
    assert l in f.columns && l !in labels;
    IndexOfPicked(f.columns, kept, l);
  }

  /** `rename(columns=mapping)`: each label the mapping knows is replaced, the rest stay. */
  function RenameColumns(f: Frame<Cell>, mapping: map<string, string>): (r: Frame<Cell>)
    ensures r.index == f.index && r.rows == f.rows && |r.columns| == |f.columns|
    ensures forall j :: 0 <= j < |f.columns| ==>
      r.columns[j] == if f.columns[j] in mapping then mapping[f.columns[j]] else f.columns[j]
  {
    Frame(seq(|f.columns|, j requires 0 <= j < |f.columns| =>
                if f.columns[j] in mapping then mapping[f.columns[j]] else f.columns[j]),
          f.index, f.rows)
  }

  /** `table['symbol'].astype(str) + suffix`. */
  function ProviderSymbols(f: Frame<Cell>, suffix: string): (r: Result<seq<Cell>>)
    requires f.Valid()
    ensures r.Err? <==> SymbolColumn !in f.columns
    ensures r.Err? ==> r.error == MissingColumn(SymbolColumn)
    ensures r.Ok? ==>
      |r.value| == |f.rows|
      && forall i :: 0 <= i < |f.rows| ==> r.value[i] == Present(AsText(At(f, i, SymbolColumn)) + suffix)
  {
    if SymbolColumn !in f.columns then Err(MissingColumn(SymbolColumn))
    else Ok(seq(|f.rows|, i requires 0 <= i < |f.rows| => Present(AsText(At(f, i, SymbolColumn)) + suffix)))
  }

  /** `table[name] = values`: an existing column is overwritten, otherwise a new one is
      appended (see `AssignColumnCells`). */
  function AssignColumn(f: Frame<Cell>, name: string, values: seq<Cell>): (r: Frame<Cell>)
    requires f.Valid() && |values| == |f.rows|
    ensures r.Valid() && r.index == f.index && |r.rows| == |f.rows|
    ensures r.columns == if name in f.columns then f.columns else f.columns + [name]
  {
    match IndexOf(f.columns, name)
    case Some(c) =>
      Frame(f.columns, f.index, seq(|f.rows|, i requires 0 <= i < |f.rows| => f.rows[i][c := values[i]]))
    case None =>
      Frame(f.columns + [name], f.index, seq(|f.rows|, i requires 0 <= i < |f.rows| => f.rows[i] + [values[i]]))
  }

  /** After the assignment the column `name` holds the values, and every other column keeps
      its cells. */
  lemma AssignColumnCells(f: Frame<Cell>, name: string, values: seq<Cell>)
    requires f.Valid() && |values| == |f.rows|
    ensures var r := AssignColumn(f, name, values);
      (forall i :: 0 <= i < |f.rows| ==> At(r, i, name) == values[i])
      && forall i, l :: 0 <= i < |f.rows| && l in f.columns && l != name ==> At(r, i, l) == At(f, i, l)
  {
    var r := AssignColumn(f, name, values);
    if name !in f.columns {
      IndexOfAppended(f.columns, name);
      forall l | l in f.columns ensures IndexOf(r.columns, l) == IndexOf(f.columns, l) {
        IndexOfExtended(f.columns, [name], l);
      }
    }
  }

  /** Lines 44-45 for one table: the ticker column appended from the symbol column. */
  function AddProviderSymbol(f: Frame<Cell>, suffix: string): (r: Result<Frame<Cell>>)
    requires f.Valid()
    ensures r.Err? <==> SymbolColumn !in f.columns
    ensures r.Err? ==> r.error == MissingColumn(SymbolColumn)
    ensures r.Ok? ==> r.value.Valid() && r.value.index == f.index && |r.value.rows| == |f.rows|
    ensures r.Ok? ==>
      r.value.columns == if ProviderColumn in f.columns then f.columns else f.columns + [ProviderColumn]
  {
    var symbols :- ProviderSymbols(f, suffix);
    Ok(AssignColumn(f, ProviderColumn, symbols))
  }

  /** In the table with the ticker column, every row's ticker is its symbol text followed by
      the suffix. */
  lemma ProviderSymbolFollowsSymbol(f: Frame<Cell>, suffix: string)
    requires f.Valid() && AddProviderSymbol(f, suffix).Ok?
    ensures var g := AddProviderSymbol(f, suffix).value;
      ProviderColumn in g.columns && SymbolColumn in g.columns
      && forall i :: 0 <= i < |g.rows| ==>
           At(g, i, ProviderColumn) == Present(AsText(At(g, i, SymbolColumn)) + suffix)
  {
    AssignColumnCells(f, ProviderColumn, ProviderSymbols(f, suffix).value);
  }

  /** Lines 41-45 for one table: rename, then the ticker column. */
  function Finish(f: Frame<Cell>, suffix: string): (r: Result<Frame<Cell>>)
    requires f.Valid()
    ensures r.Err? ==> r.error == MissingColumn(SymbolColumn)
    ensures r.Ok? ==> r.value.Valid() && r.value.index == f.index && |r.value.rows| == |f.rows|
  {
    AddProviderSymbol(RenameColumns(f, Renaming), suffix)
  }

  /** Lines 32-45 for one table: drop, rename, ticker column. */
  function Trim(f: Frame<Cell>, suffix: string): (r: Result<Frame<Cell>>)
    requires f.Valid()
    ensures (exists l :: l in DroppedLabels && l !in f.columns) ==> r.Err? && r.error.LabelsNotFound?
    ensures r.Err? ==> r.error.LabelsNotFound? || r.error == MissingColumn(SymbolColumn)
    ensures r.Ok? ==> r.value.Valid() && r.value.index == f.index && |r.value.rows| == |f.rows|
  {
    var trimmed :- DropColumns(f, DroppedLabels);
    Finish(trimmed, suffix)
  }

  /** Lines 27-45 for one table, step after step. */
  function Refine(f: Frame<Cell>, suffix: string): (r: Result<Frame<Cell>>)
    requires f.Valid()
    ensures CodeLabel !in f.columns ==> r == Err(MissingColumn(CodeLabel))
    ensures r.Err? ==>
      r.error == MissingColumn(CodeLabel) || r.error.LabelsNotFound? || r.error == MissingColumn(SymbolColumn)
    ensures r.Ok? ==> r.value.Valid()
  {
    var kept :- FilterEquity(f);
    Trim(kept, suffix)
  }

  /** A refined table holds one row per equity row of its input, in input order, each under
      the input's index label, and every row's ticker is its symbol followed by the suffix. */
  lemma RefineKeepsEquityRows(f: Frame<Cell>, suffix: string)
    requires f.Valid()
    requires Refine(f, suffix).Ok?
    ensures CodeLabel in f.columns
    ensures var g := Refine(f, suffix).value;
      g.index == Pick(f.index, EquityPositions(f))
      && ProviderColumn in g.columns && SymbolColumn in g.columns
      && forall i :: 0 <= i < |g.rows| ==>
           At(g, i, ProviderColumn) == Present(AsText(At(g, i, SymbolColumn)) + suffix)
  {
    var kept := FilterEquity(f).value;
    var trimmed := DropColumns(kept, DroppedLabels).value;
    assert Refine(f, suffix) == AddProviderSymbol(RenameColumns(trimmed, Renaming), suffix);
    ProviderSymbolFollowsSymbol(RenameColumns(trimmed, Renaming), suffix);
  }

  /** On eight labels of which the third, fourth, seventh and eighth are dropped, the drop
      keeps the first, second, fifth and sixth, in that order. */
  lemma WithoutEight(l0: string, l1: string, l2: string, l3: string,
                     l4: string, l5: string, l6: string, l7: string, dropped: seq<string>)
    requires l0 !in dropped && l1 !in dropped && l2 in dropped && l3 in dropped
    requires l4 !in dropped && l5 !in dropped && l6 in dropped && l7 in dropped
    ensures Without([l0, l1, l2, l3, l4, l5, l6, l7], dropped) == [l0, l1, l4, l5]
  {
    var t7 := [l7];
    var t6 := [l6] + t7;
    var t5 := [l5] + t6;
    var t4 := [l4] + t5;
    var t3 := [l3] + t4;
    var t2 := [l2] + t3;
    var t1 := [l1] + t2;
    var t0 := [l0] + t1;
    WithoutCons(l7, [], dropped);
    assert [l7] + [] == t7;
    WithoutCons(l6, t7, dropped);
    WithoutCons(l5, t6, dropped);
    WithoutCons(l4, t5, dropped);
    WithoutCons(l3, t4, dropped);
    WithoutCons(l2, t3, dropped);
    WithoutCons(l1, t2, dropped);
    WithoutCons(l0, t1, dropped);
    assert t0 == [l0, l1, l2, l3, l4, l5, l6, l7];
  }

  lemma WithoutCons(x: string, rest: seq<string>, dropped: seq<string>)
    ensures Without([x] + rest, dropped) == (if x in dropped then [] else [x]) + Without(rest, dropped)
  {
    assert ([x] + rest)[1..] == rest;
  }

  /** On the header the crawler gives for the page, the drop leaves symbol, name, market and
      industry, in that order. */
  lemma DropOnPageHeader()
    ensures Without(CleanedHeader, DroppedLabels) == KeptPageLabels
  {
    // Each kept label differs from each dropped one in length or in its first character.
    assert |SymbolLabel| != |IsinLabel| && |SymbolLabel| != |ListingDateLabel|;
    assert |SymbolLabel| != |CodeLabel| && |SymbolLabel| != |RemarksLabel|;
    assert |NameLabel| != |IsinLabel| && |NameLabel| != |ListingDateLabel|;
    assert |NameLabel| != |CodeLabel| && NameLabel[0] != RemarksLabel[0];
    assert |MarketLabel| != |IsinLabel| && MarketLabel[0] != ListingDateLabel[0];
    assert |MarketLabel| != |CodeLabel| && |MarketLabel| != |RemarksLabel|;
    assert |IndustryLabel| != |IsinLabel| && IndustryLabel[0] != ListingDateLabel[0];
    assert |IndustryLabel| != |CodeLabel| && |IndustryLabel| != |RemarksLabel|;
    WithoutEight(SymbolLabel, NameLabel, IsinLabel, ListingDateLabel,
                 MarketLabel, IndustryLabel, CodeLabel, RemarksLabel, DroppedLabels);
  }

  /** The cleaned page header holds the classification code and every dropped label. */
  lemma PageHeaderHoldsDropped()
    ensures CodeLabel in CleanedHeader
    ensures forall l :: l in DroppedLabels ==> l in CleanedHeader
  {
    assert DroppedLabels == [CleanedHeader[2], CleanedHeader[3], CleanedHeader[6], CleanedHeader[7]];
  }

  /** The renaming turns the four kept page labels into the first four output labels, which
      hold the symbol column and not the ticker column. */
  lemma RenamedPageLabels(g: Frame<Cell>)
    requires g.columns == [SymbolLabel, NameLabel, MarketLabel, IndustryLabel]
    ensures RenameColumns(g, Renaming).columns == OutputHeader[..4]
    ensures SymbolColumn in OutputHeader[..4] && ProviderColumn !in OutputHeader[..4]
    ensures OutputHeader[..4] + [ProviderColumn] == OutputHeader
  {
    // The four labels differ pairwise in length or in their first character.
    assert |SymbolLabel| != |NameLabel| && |SymbolLabel| != |MarketLabel| && |SymbolLabel| != |IndustryLabel|;
    assert |NameLabel| != |MarketLabel| && |NameLabel| != |IndustryLabel| && MarketLabel[0] != IndustryLabel[0];
    assert |ProviderColumn| != |OutputHeader[0]| && |ProviderColumn| != |OutputHeader[1]|;
    assert |ProviderColumn| != |OutputHeader[2]| && |ProviderColumn| != |OutputHeader[3]|;
  }

  /** A table under the crawler's header for the page always gets through lines 27-45, and
      comes out headed `symbol, name, market, industry, yf_symbol`. */
  lemma RefinedHeader(f: Frame<Cell>, suffix: string)
    requires f.Valid() && f.columns == CleanedHeader
    ensures Refine(f, suffix).Ok? && Refine(f, suffix).value.columns == OutputHeader
  {
    PageHeaderHoldsDropped();
    var kept := FilterEquity(f).value;
    DropOnPageHeader();
    var trimmed := DropColumns(kept, DroppedLabels).value;
    var renamed := RenameColumns(trimmed, Renaming);
    RenamedPageLabels(trimmed);
    assert Refine(f, suffix) == AddProviderSymbol(renamed, suffix);
  }

  /** Neither the four kept page labels nor the first four output labels repeat, and the
      rename maps each kept label to the output label at the same position. */
  lemma KeptPageLabelsDistinct()
    ensures forall i, j :: 0 <= i < j < 4 ==> KeptPageLabels[i] != KeptPageLabels[j]
    ensures forall i, j :: 0 <= i < j < 4 ==> OutputHeader[i] != OutputHeader[j]
    ensures forall k :: 0 <= k < 4 ==> KeptPageLabels[k] in Renaming && Renaming[KeptPageLabels[k]] == OutputHeader[k]
    ensures forall k :: 0 <= k < 4 ==> KeptPageLabels[k] in CleanedHeader
  {
    assert KeptPageLabels == [CleanedHeader[0], CleanedHeader[1], CleanedHeader[4], CleanedHeader[5]];
    assert |SymbolLabel| != |NameLabel| && |SymbolLabel| != |MarketLabel| && |SymbolLabel| != |IndustryLabel|;
    assert |NameLabel| != |MarketLabel| && |NameLabel| != |IndustryLabel| && MarketLabel[0] != IndustryLabel[0];
    assert OutputHeader[0][0] != OutputHeader[2][0];
  }

  /** Row `j` of the filtered table holds, under every label, the cell of the `j`-th equity
      row of the input. */
  lemma FilterCell(f: Frame<Cell>, j: nat, l: string)
    requires f.Valid() && CodeLabel in f.columns && l in f.columns
    requires j < |FilterEquity(f).value.rows|
    ensures j < |EquityPositions(f)| && EquityPositions(f)[j] < |f.rows|
    ensures At(FilterEquity(f).value, j, l) == At(f, EquityPositions(f)[j], l)
  {
  }

  /** When the label at position `k` is found there before and after the rename, and is not
      the ticker column, renaming and adding the ticker column keep its cells under the new
      name. */
  lemma FinishCell(t: Frame<Cell>, suffix: string, j: nat, k: nat)
    requires t.Valid() && j < |t.rows| && k < |t.columns|
    requires Finish(t, suffix).Ok?
    requires IndexOf(t.columns, t.columns[k]) == Some(k)
    requires var names := RenameColumns(t, Renaming).columns;
      IndexOf(names, names[k]) == Some(k) && names[k] != ProviderColumn
    ensures var name := RenameColumns(t, Renaming).columns[k];
      name in Finish(t, suffix).value.columns && j < |Finish(t, suffix).value.rows|
      && At(Finish(t, suffix).value, j, name) == At(t, j, t.columns[k])
  {
    var renamed := RenameColumns(t, Renaming);
    AssignColumnCells(renamed, ProviderColumn, ProviderSymbols(renamed, suffix).value);
  }

  /** For a table that the drop leaves with the four kept page labels, the `k`-th output
      label of the trimmed table holds the cells of the `k`-th kept label. */
  lemma TrimCell(kept: Frame<Cell>, suffix: string, j: nat, k: nat)
    requires kept.Valid() && DropColumns(kept, DroppedLabels).Ok? && k < 4
    requires Without(kept.columns, DroppedLabels) == KeptPageLabels
    requires Trim(kept, suffix).Ok? && j < |Trim(kept, suffix).value.rows|
    ensures OutputHeader[k] in Trim(kept, suffix).value.columns && KeptPageLabels[k] in kept.columns
    ensures At(Trim(kept, suffix).value, j, OutputHeader[k]) == At(kept, j, KeptPageLabels[k])
  {
    KeptPosition(k);
    WithoutMember(kept.columns, DroppedLabels, KeptPageLabels[k]);
    var trimmed := DropColumns(kept, DroppedLabels).value;
    RenamedPageLabels(trimmed);
    FinishCell(trimmed, suffix, j, k);
    DropKeepsOtherColumns(kept, DroppedLabels);
  }

  /** The `k`-th kept page label and the `k`-th output label are each found at position `k`,
      and the rename maps the one to the other. */
  lemma KeptPosition(k: nat)
    requires k < 4
    ensures IndexOf(KeptPageLabels, KeptPageLabels[k]) == Some(k)
    ensures IndexOf(OutputHeader[..4], OutputHeader[k]) == Some(k)
    ensures KeptPageLabels[k] in Renaming && Renaming[KeptPageLabels[k]] == OutputHeader[k]
    ensures KeptPageLabels[k] in CleanedHeader
  {
    KeptPageLabelsDistinct();
    IndexOfDistinct(KeptPageLabels, k);
    IndexOfDistinct(OutputHeader[..4], k);
  }

  /** On the page layout, the `symbol`, `name`, `market` and `industry` cells of refined row
      `j` are the `有價證券代號`, `名稱`, `市場別` and `產業別` cells of the `j`-th equity row of
      the input. */
  lemma RefinedCells(f: Frame<Cell>, suffix: string, j: nat, k: nat)
    requires f.Valid() && f.columns == CleanedHeader && k < 4
    requires Refine(f, suffix).Ok? && j < |Refine(f, suffix).value.rows|
    ensures var g := Refine(f, suffix).value;
      CodeLabel in f.columns && j < |EquityPositions(f)|
      && OutputHeader[k] in g.columns && KeptPageLabels[k] in f.columns
      && At(g, j, OutputHeader[k]) == At(f, EquityPositions(f)[j], KeptPageLabels[k])
  {
    PageHeaderHoldsDropped();
    DropOnPageHeader();
    var kept := FilterEquity(f).value;
    assert Refine(f, suffix) == Trim(kept, suffix);
    TrimCell(kept, suffix, j, k);
    KeptPosition(k);
    FilterCell(f, j, KeptPageLabels[k]);
  }

  /** Labels of `more` not yet in `known`, each once, in order of first appearance. */
  function NewLabels(known: seq<string>, more: seq<string>): (r: seq<string>)
    ensures forall l :: l in r <==> l in more && l !in known
    ensures forall i, j :: 0 <= i < j < |r| ==> r[i] != r[j]
    decreases |more|
  {
    if |more| == 0 then []
    else if more[0] in known then NewLabels(known, more[1..])
    else
      var rest := NewLabels(known + [more[0]], more[1..]);
      assert more[0] in known + [more[0]];
      assert forall j :: 0 <= j < |rest| ==> rest[j] in rest && rest[j] != more[0];
      [more[0]] + rest
  }

  /** A row of `b` laid out under `columns`: each label's cell, or padding where `b` lacks it. */
  function Aligned(b: Frame<Cell>, i: nat, columns: seq<string>): (row: seq<Cell>)
    requires b.Valid() && i < |b.rows|
    ensures |row| == |columns|
    ensures forall j :: 0 <= j < |columns| && columns[j] in b.columns ==> row[j] == At(b, i, columns[j])
  {
    seq(|columns|, j requires 0 <= j < |columns| => if columns[j] in b.columns then At(b, i, columns[j]) else Missing)
  }

  /** `pd.concat([a, b]).reset_index(drop=True)`: the rows of `a`, then those of `b`, under
      the union of the labels (padding where a table lacks one), indexed 0 to n - 1. */
  function Concat(a: Frame<Cell>, b: Frame<Cell>): (r: Frame<Cell>)
    requires a.Valid() && b.Valid()
    ensures r.Valid() && |r.rows| == |a.rows| + |b.rows|
    ensures forall i :: 0 <= i < |r.rows| ==> r.index[i] == i
    ensures a.columns == b.columns ==> r.columns == a.columns && r.rows == a.rows + b.rows
  {
    var index := seq(|a.rows| + |b.rows|, i => i);
    if a.columns == b.columns then
      Frame(a.columns, index, a.rows + b.rows)
    else
      var extra := NewLabels(a.columns, b.columns);
      var columns := a.columns + extra;
      var top := seq(|a.rows|, i requires 0 <= i < |a.rows| => a.rows[i] + seq(|extra|, _ => Missing));
      var bottom := seq(|b.rows|, i requires 0 <= i < |b.rows| => Aligned(b, i, columns));
      Frame(columns, index, top + bottom)
  }

  /** The stacked table carries every label of either table. */
  lemma ConcatLabels(a: Frame<Cell>, b: Frame<Cell>)
    requires a.Valid() && b.Valid()
    ensures forall l :: l in Concat(a, b).columns <==> l in a.columns || l in b.columns
  {
  }

  /** The rows of `a` keep their cells under each of `a`'s labels, and the rows of `b`,
      after those of `a`, keep theirs under each of `b`'s labels. */
  lemma ConcatKeepsCells(a: Frame<Cell>, b: Frame<Cell>)
    requires a.Valid() && b.Valid()
    ensures var r := Concat(a, b);
      (forall i, l :: 0 <= i < |a.rows| && l in a.columns ==> At(r, i, l) == At(a, i, l))
      && forall i, l :: 0 <= i < |b.rows| && l in b.columns ==> At(r, |a.rows| + i, l) == At(b, i, l)
  {
    var r := Concat(a, b);
    if a.columns != b.columns {
      ConcatKeepsTopCells(a, b);
      forall i, l | 0 <= i < |b.rows| && l in b.columns ensures At(r, |a.rows| + i, l) == At(b, i, l) {
        assert r.rows[|a.rows| + i] == Aligned(b, i, r.columns);
        ConcatLabels(a, b);
      }
    }
  }

  /** Under differing labels, the rows of `a` are padded at the end, so their labels keep
      their positions and cells. */
  lemma ConcatKeepsTopCells(a: Frame<Cell>, b: Frame<Cell>)
    requires a.Valid() && b.Valid() && a.columns != b.columns
    ensures forall i, l :: 0 <= i < |a.rows| && l in a.columns ==> At(Concat(a, b), i, l) == At(a, i, l)
  {
    var r := Concat(a, b);
    var extra := NewLabels(a.columns, b.columns);
    assert r.columns == a.columns + extra;
    forall i, l | 0 <= i < |a.rows| && l in a.columns ensures At(r, i, l) == At(a, i, l) {
      IndexOfExtended(a.columns, extra, l);
      assert r.rows[i][..|a.columns|] == a.rows[i];
    }
  }

  /** `get_stock_symbols` after the two fetches: both tables cleaned, then each step of
      lines 27-45 applied to the exchange-listed table and then to the over-the-counter one,
      so the first failing step, in that order, decides the error. */
  function StockSymbols(rawTse: seq<seq<string>>, rawOtc: seq<seq<string>>): (r: Result<Frame<Cell>>)
    requires Rectangular(rawTse) && Rectangular(rawOtc)
    ensures StockSymbolCrawler(TseMode, rawTse).Err? ==> r == StockSymbolCrawler(TseMode, rawTse)
    ensures StockSymbolCrawler(TseMode, rawTse).Ok? && StockSymbolCrawler(OtcMode, rawOtc).Err? ==>
      r == StockSymbolCrawler(OtcMode, rawOtc)
    ensures r.Ok? ==> r.value.Valid() && forall i :: 0 <= i < |r.value.rows| ==> r.value.index[i] == i
  {
    var tse :- StockSymbolCrawler(TseMode, rawTse);
    var otc :- StockSymbolCrawler(OtcMode, rawOtc);
    FilterBoth(tse, otc)
  }

  /** Lines 27-28, then the rest. */
  function FilterBoth(tse: Frame<Cell>, otc: Frame<Cell>): (r: Result<Frame<Cell>>)
    requires tse.Valid() && otc.Valid()
    ensures CodeLabel !in tse.columns || CodeLabel !in otc.columns ==> r == Err(MissingColumn(CodeLabel))
    ensures r.Ok? ==> r.value.Valid() && forall i :: 0 <= i < |r.value.rows| ==> r.value.index[i] == i
  {
    var tseKept :- FilterEquity(tse);
    var otcKept :- FilterEquity(otc);
    DropBoth(tseKept, otcKept)
  }

  /** Lines 32-33 and 41-42, then the rest. */
  function DropBoth(tse: Frame<Cell>, otc: Frame<Cell>): (r: Result<Frame<Cell>>)
    requires tse.Valid() && otc.Valid()
    ensures (exists l :: l in DroppedLabels && l !in tse.columns) ==> r.Err? && r.error.LabelsNotFound?
    ensures r.Err? ==> r.error.LabelsNotFound? || r.error == MissingColumn(SymbolColumn)
    ensures r.Ok? ==> r.value.Valid() && |r.value.rows| == |tse.rows| + |otc.rows|
    ensures r.Ok? ==> forall i :: 0 <= i < |r.value.rows| ==> r.value.index[i] == i
  {
    var tseTrimmed :- DropColumns(tse, DroppedLabels);
    var otcTrimmed :- DropColumns(otc, DroppedLabels);
    TickerBoth(RenameColumns(tseTrimmed, Renaming), RenameColumns(otcTrimmed, Renaming))
  }

  /** Lines 44-48: the ticker columns, then the two tables stacked. */
  function TickerBoth(tse: Frame<Cell>, otc: Frame<Cell>): (r: Result<Frame<Cell>>)
    requires tse.Valid() && otc.Valid()
    ensures r.Err? <==> SymbolColumn !in tse.columns || SymbolColumn !in otc.columns
    ensures r.Err? ==> r.error == MissingColumn(SymbolColumn)
    ensures r.Ok? ==> r.value.Valid() && |r.value.rows| == |tse.rows| + |otc.rows|
    ensures r.Ok? ==> forall i :: 0 <= i < |r.value.rows| ==> r.value.index[i] == i
  {
    var tseFinal :- AddProviderSymbol(tse, TseSuffix);
    var otcFinal :- AddProviderSymbol(otc, OtcSuffix);
    Ok(Concat(tseFinal, otcFinal))
  }

  /** Each stage of the interleaved pipeline succeeds exactly when each table gets through
      the remaining steps on its own, and then gives the two results stacked. */
  lemma DropBothStacks(tse: Frame<Cell>, otc: Frame<Cell>)
    requires tse.Valid() && otc.Valid()
    ensures var r := DropBoth(tse, otc);
      (r.Ok? <==> Trim(tse, TseSuffix).Ok? && Trim(otc, OtcSuffix).Ok?)
      && (r.Ok? ==> r.value == Concat(Trim(tse, TseSuffix).value, Trim(otc, OtcSuffix).value))
  {
  }

  lemma FilterBothStacks(tse: Frame<Cell>, otc: Frame<Cell>)
    requires tse.Valid() && otc.Valid()
    ensures var r := FilterBoth(tse, otc);
      (r.Ok? <==> Refine(tse, TseSuffix).Ok? && Refine(otc, OtcSuffix).Ok?)
      && (r.Ok? ==> r.value == Concat(Refine(tse, TseSuffix).value, Refine(otc, OtcSuffix).value))
  {
    if FilterEquity(tse).Ok? && FilterEquity(otc).Ok? {
      DropBothStacks(FilterEquity(tse).value, FilterEquity(otc).value);
    }
  }

  /** The interleaved pipeline succeeds exactly when each table gets through on its own, and
      then it is the two refined tables stacked. */
  lemma StockSymbolsStacksRefinedTables(rawTse: seq<seq<string>>, rawOtc: seq<seq<string>>)
    requires Rectangular(rawTse) && Rectangular(rawOtc)
    ensures var r := StockSymbols(rawTse, rawOtc);
      var tse := StockSymbolCrawler(TseMode, rawTse);
      var otc := StockSymbolCrawler(OtcMode, rawOtc);
      (r.Ok? <==> tse.Ok? && otc.Ok? && Refine(tse.value, TseSuffix).Ok? && Refine(otc.value, OtcSuffix).Ok?)
      && (r.Ok? ==> r.value == Concat(Refine(tse.value, TseSuffix).value, Refine(otc.value, OtcSuffix).value))
  {
    var tse := StockSymbolCrawler(TseMode, rawTse);
    var otc := StockSymbolCrawler(OtcMode, rawOtc);
    if tse.Ok? && otc.Ok? {
      FilterBothStacks(tse.value, otc.value);
    }
  }

  /** In the combined table the exchange-listed equity rows come first, then the
      over-the-counter ones; rows are indexed 0 to n - 1; and every row's ticker is its symbol
      followed by ".TW" in the first part and ".TWO" in the second. */
  lemma CombinedListing(rawTse: seq<seq<string>>, rawOtc: seq<seq<string>>)
    requires Rectangular(rawTse) && Rectangular(rawOtc)
    requires StockSymbols(rawTse, rawOtc).Ok?
    ensures var tse := StockSymbolCrawler(TseMode, rawTse);
      var otc := StockSymbolCrawler(OtcMode, rawOtc);
      var r := StockSymbols(rawTse, rawOtc).value;
      tse.Ok? && otc.Ok? && CodeLabel in tse.value.columns && CodeLabel in otc.value.columns
      && var n := |EquityPositions(tse.value)|;
      |r.rows| == n + |EquityPositions(otc.value)|
      && (forall i :: 0 <= i < |r.rows| ==> r.index[i] == i)
      && ProviderColumn in r.columns && SymbolColumn in r.columns
      && forall i :: 0 <= i < |r.rows| ==>
           At(r, i, ProviderColumn) == Present(AsText(At(r, i, SymbolColumn)) + if i < n then TseSuffix else OtcSuffix)
  {
    StockSymbolsStacksRefinedTables(rawTse, rawOtc);
    var tse := StockSymbolCrawler(TseMode, rawTse).value;
    var otc := StockSymbolCrawler(OtcMode, rawOtc).value;
    RefineKeepsEquityRows(tse, TseSuffix);
    RefineKeepsEquityRows(otc, OtcSuffix);
    var t := Refine(tse, TseSuffix).value;
    var o := Refine(otc, OtcSuffix).value;
    var r := StockSymbols(rawTse, rawOtc).value;
    assert r == Concat(t, o);
    ConcatKeepsCells(t, o);
    forall i | 0 <= i < |r.rows|
      ensures At(r, i, ProviderColumn) == Present(AsText(At(r, i, SymbolColumn)) + if i < |t.rows| then TseSuffix else OtcSuffix)
    {
      if i >= |t.rows| {
        assert At(r, |t.rows| + (i - |t.rows|), ProviderColumn) == At(o, i - |t.rows|, ProviderColumn);
        assert At(r, |t.rows| + (i - |t.rows|), SymbolColumn) == At(o, i - |t.rows|, SymbolColumn);
      }
    }
  }

  /** When both pages carry the registry's header row and both crawls succeed, the whole
      pipeline succeeds and the combined list is headed `symbol, name, market, industry,
      yf_symbol`. */
  lemma StandardHeader(rawTse: seq<seq<string>>, rawOtc: seq<seq<string>>)
    requires Rectangular(rawTse) && |rawTse| > 0 && rawTse[0] == PageHeader
    requires Rectangular(rawOtc) && |rawOtc| > 0 && rawOtc[0] == PageHeader
    requires StockSymbolCrawler(TseMode, rawTse).Ok? && StockSymbolCrawler(OtcMode, rawOtc).Ok?
    ensures StockSymbols(rawTse, rawOtc).Ok?
    ensures StockSymbols(rawTse, rawOtc).value.columns == OutputHeader
  {
    var tse := StockSymbolCrawler(TseMode, rawTse).value;
    var otc := StockSymbolCrawler(OtcMode, rawOtc).value;
    PageHeaderColumns(TseMode, rawTse);
    PageHeaderColumns(OtcMode, rawOtc);
    RefinedHeader(tse, TseSuffix);
    RefinedHeader(otc, OtcSuffix);
    StockSymbolsStacksRefinedTables(rawTse, rawOtc);
  }

  /** A pandas DataFrame that lines 32-33, 41-42 and 44-45 change in place. */
  class DataFrame {
    var columns: seq<string>
    var index: seq<int>
    var rows: seq<seq<Cell>>

    /** The table the object currently holds. */
    function Value(): Frame<Cell>
      reads this
    {
      Frame(columns, index, rows)
    }

    constructor (f: Frame<Cell>)
      ensures Value() == f
    {
      columns, index, rows := f.columns, f.index, f.rows;
    }

    /** `drop(columns=labels, inplace=True)`: on an absent label it raises and the table is
        left as it was. */
    method Drop(labels: seq<string>) returns (failure: Option<Error>)
      requires Value().Valid()
      modifies this
      ensures failure.None? <==> DropColumns(old(Value()), labels).Ok?
      ensures failure.None? ==> Value() == DropColumns(old(Value()), labels).value
      ensures failure.Some? ==>
        failure.value == DropColumns(old(Value()), labels).error && Value() == old(Value())
    {
      var dropped := DropColumns(Value(), labels);
      if dropped.Err? {
        return Some(dropped.error);
      }
      columns, index, rows := dropped.value.columns, dropped.value.index, dropped.value.rows;
      return None;
    }

    /** `rename(columns=mapping, inplace=True)`. */
    method Rename(mapping: map<string, string>)
      modifies this
      ensures Value() == RenameColumns(old(Value()), mapping)
    {
      columns := RenameColumns(Value(), mapping).columns;
    }

    /** `table[name] = values`. */
    method Assign(name: string, values: seq<Cell>)
      requires Value().Valid() && |values| == |rows|
      modifies this
      ensures Value() == AssignColumn(old(Value()), name, values)
    {
      var updated := AssignColumn(Value(), name, values);
      columns, rows := updated.columns, updated.rows;
    }
  }

  /** `get_stock_symbols` as the source runs it: the filtered tables are changed in place by
      the drop, the rename and the ticker assignment, then stacked. */
  method GetStockSymbols(rawTse: seq<seq<string>>, rawOtc: seq<seq<string>>) returns (r: Result<Frame<Cell>>)
    requires Rectangular(rawTse) && Rectangular(rawOtc)
    ensures r == StockSymbols(rawTse, rawOtc)
  {
    var tseCrawled := StockSymbolCrawler(TseMode, rawTse);
    if tseCrawled.Err? {
      return Err(tseCrawled.error);
    }
    var otcCrawled := StockSymbolCrawler(OtcMode, rawOtc);
    if otcCrawled.Err? {
      return Err(otcCrawled.error);
    }
    assert StockSymbols(rawTse, rawOtc) == FilterBoth(tseCrawled.value, otcCrawled.value);
    var tseKept := FilterEquity(tseCrawled.value);
    if tseKept.Err? {
      return Err(tseKept.error);
    }
    var otcKept := FilterEquity(otcCrawled.value);
    if otcKept.Err? {
      return Err(otcKept.error);
    }
    assert StockSymbols(rawTse, rawOtc) == DropBoth(tseKept.value, otcKept.value);
    r := RefineInPlace(tseKept.value, otcKept.value);
  }

  /** Lines 32-48 on two fresh tables changed in place. */
  method RefineInPlace(tseKept: Frame<Cell>, otcKept: Frame<Cell>) returns (r: Result<Frame<Cell>>)
    requires tseKept.Valid() && otcKept.Valid()
    ensures r == DropBoth(tseKept, otcKept)
  {
    var tse := new DataFrame(tseKept);
    var otc := new DataFrame(otcKept);
    var failure := tse.Drop(DroppedLabels);
    if failure.Some? {
      return Err(failure.value);
    }
    failure := otc.Drop(DroppedLabels);
    if failure.Some? {
      return Err(failure.value);
    }
    tse.Rename(Renaming);
    otc.Rename(Renaming);
    assert DropBoth(tseKept, otcKept) == TickerBoth(tse.Value(), otc.Value());
    r := TickersInPlace(tse, otc);
  }

  /** Lines 44-48 on the two renamed tables: each gets its ticker column in place, then they
      are stacked. */
  method TickersInPlace(tse: DataFrame, otc: DataFrame) returns (r: Result<Frame<Cell>>)
    requires tse != otc && tse.Value().Valid() && otc.Value().Valid()
    modifies tse, otc
    ensures r == TickerBoth(old(tse.Value()), old(otc.Value()))
    ensures SymbolColumn !in old(tse.Value()).columns ==>
      tse.Value() == old(tse.Value()) && otc.Value() == old(otc.Value())
    ensures SymbolColumn in old(tse.Value()).columns ==>
      tse.Value() == AddProviderSymbol(old(tse.Value()), TseSuffix).value
    ensures SymbolColumn in old(tse.Value()).columns && SymbolColumn !in old(otc.Value()).columns ==>
      otc.Value() == old(otc.Value())
    ensures SymbolColumn in old(tse.Value()).columns && SymbolColumn in old(otc.Value()).columns ==>
      otc.Value() == AddProviderSymbol(old(otc.Value()), OtcSuffix).value
      && r == Ok(Concat(tse.Value(), otc.Value()))
  {
    var tseSymbols := ProviderSymbols(tse.Value(), TseSuffix);
    if tseSymbols.Err? {
      return Err(tseSymbols.error);
    }
    tse.Assign(ProviderColumn, tseSymbols.value);
    var otcSymbols := ProviderSymbols(otc.Value(), OtcSuffix);
    if otcSymbols.Err? {
      return Err(otcSymbols.error);
    }
    otc.Assign(ProviderColumn, otcSymbols.value);
    r := Ok(Concat(tse.Value(), otc.Value()));
  }
}
