/** The cleaning half of `stock_symbol_crawler` and its row repair `split_symbol_name`
    (getStockList.py). The page fetch is not modelled: the table `pd.read_html` extracted
    from the response is an input. */
module Crawler {
  import opened Strings
  import opened Frames

  /** The registry's `strMode` values: exchange-listed and over-the-counter. */
  const TseMode: int := 2
  const OtcMode: int := 4

  /** The two halves of the page's compound first header, and the glyph joining them. */
  const SymbolLabel: string := "有價證券代號"
  const NameLabel: string := "名稱"
  const HeaderJoiner: char := '及'

  const IdeographicSpace: char := '\U{3000}'
  const Space: char := ' '

  /** The page's other column labels. */
  const IsinLabel: string := "國際證券辨識號碼(ISIN Code)"
  const ListingDateLabel: string := "上市日"
  const MarketLabel: string := "市場別"
  const IndustryLabel: string := "產業別"
  const CodeLabel: string := "CFICode"
  const RemarksLabel: string := "備註"

  /** The registry page's header row: the compound symbol-and-name label, then the ISIN
      code, listing date, market, industry, classification code and remarks. */
  const PageHeader: seq<string> :=
    [SymbolLabel + [HeaderJoiner] + NameLabel, IsinLabel, ListingDateLabel, MarketLabel, IndustryLabel,
     CodeLabel, RemarksLabel]

  /** The header the cleaning gives the page's table. */
  const CleanedHeader: seq<string> :=
    [SymbolLabel, NameLabel, IsinLabel, ListingDateLabel, MarketLabel, IndustryLabel, CodeLabel, RemarksLabel]

  /** The first table `pd.read_html` found: rows of cell texts, all the same width. */
  predicate Rectangular(raw: seq<seq<string>>) {
    forall i :: 0 <= i < |raw| ==> |raw[i]| == |raw[0]|
  }

  /** Row 0 becomes the header; the banner rows are then skipped, two for the registry's
      modes and one for any mode from 11 up. The row index keeps each row's original position. */
  function AdoptHeader(raw: seq<seq<string>>, mode: int): (r: Result<Frame<string>>)
    requires Rectangular(raw)
    ensures r.Err? <==> |raw| == 0
    ensures r.Err? ==> r.error == EmptyTable
    ensures r.Ok? ==> r.value.Valid() && r.value.columns == raw[0]
  {
    if |raw| == 0 then Err(EmptyTable)
    else
      var skip := if mode < 11 then 2 else 1;
      var start := if |raw| < skip then |raw| else skip;
      Ok(Frame(raw[0], seq(|raw| - start, i => start + i), raw[start..]))
  }

  /** For both accepted modes exactly the first two rows go (the header row among them),
      the others keep their order and their original positions as index labels. */
  lemma HeaderAdoption(raw: seq<seq<string>>, mode: int)
    requires Rectangular(raw) && |raw| > 0
    requires mode == TseMode || mode == OtcMode
    ensures var f := AdoptHeader(raw, mode).value;
      |f.rows| == (if |raw| >= 2 then |raw| - 2 else 0)
      && forall i :: 0 <= i < |f.rows| ==> f.rows[i] == raw[i + 2] && f.index[i] == i + 2
  {
  }

  /** Every first-column value split on U+3000. */
  function FirstColumnParts(f: Frame<string>): (parts: seq<seq<string>>)
    requires f.Valid() && |f.columns| > 0
    ensures |parts| == |f.rows|
    ensures forall i :: 0 <= i < |f.rows| ==> parts[i] == Split(f.rows[i][0], IdeographicSpace)
  {
    seq(|f.rows|, i requires 0 <= i < |f.rows| => Split(f.rows[i][0], IdeographicSpace))
  }

  /** How many columns `str.split(..., expand=True)` produces: the largest piece count over
      the rows, and none when there are no rows. */
  function Widest(parts: seq<seq<string>>): (w: nat)
    ensures forall i :: 0 <= i < |parts| ==> |parts[i]| <= w
    ensures |parts| == 0 ==> w == 0
    ensures |parts| > 0 ==> exists i :: 0 <= i < |parts| && |parts[i]| == w
  {
    if |parts| == 0 then 0
    else
      var w := Widest(parts[..|parts| - 1]);
      if |parts[|parts| - 1]| > w then |parts[|parts| - 1]| else w
  }

  /** One row of a two-column expansion: the first piece, then the second or the padding. */
  function ExpandedCells(pieces: seq<string>): (cells: seq<Cell>)
    requires |pieces| > 0
    ensures |cells| == 2 && cells[0] == Present(pieces[0])
    ensures cells[1].Missing? <==> |pieces| == 1
    ensures |pieces| > 1 ==> cells[1] == Present(pieces[1])
  {
    [Present(pieces[0]), if |pieces| > 1 then Present(pieces[1]) else Missing]
  }

  /** The compound first column is split into two columns named by the halves of its
      header, which take its place in front of the remaining columns. */
  function SplitCompound(f: Frame<string>): (r: Result<Frame<Cell>>)
    requires f.Valid()
    ensures r.Err? ==>
      r.error.NoColumns? || r.error.AmbiguousColumn? || r.error.HeaderNotCompound? || r.error.SplitWidth?
    ensures r.Err? <==>
      |f.columns| == 0 || f.columns[0] in f.columns[1..]
      || |Split(f.columns[0], HeaderJoiner)| < 2 || Widest(FirstColumnParts(f)) != 2
    ensures r.Ok? ==>
      var names := Split(f.columns[0], HeaderJoiner);
      var g := r.value;
      g.Valid() && g.index == f.index && |g.rows| == |f.rows| > 0
      && g.columns == [names[0], names[1]] + f.columns[1..]
      && f.columns[0] !in g.columns[2..]
      && forall i :: 0 <= i < |f.rows| ==>
           var pieces := Split(f.rows[i][0], IdeographicSpace);
           1 <= |pieces| <= 2
           && g.rows[i][0] == Present(pieces[0])
           && g.rows[i][1] == (if |pieces| == 2 then Present(pieces[1]) else Missing)
           && g.rows[i][2..] == Presents(f.rows[i][1..])
  {
    if |f.columns| == 0 then Err(NoColumns)
    else
      var compound := f.columns[0];
      if compound in f.columns[1..] then Err(AmbiguousColumn(compound))
      else
        var names := Split(compound, HeaderJoiner);
        var parts := FirstColumnParts(f);
        var width := Widest(parts);
        if |names| < 2 then Err(HeaderNotCompound(compound))
        else if width != 2 then Err(SplitWidth(width))
        else
          Ok(Frame([names[0], names[1]] + f.columns[1..], f.index,
                   seq(|f.rows|, i requires 0 <= i < |f.rows| => ExpandedCells(parts[i]) + Presents(f.rows[i][1..]))))
  }

  /** On a table whose compound header holds the joining glyph and whose every first-column
      value holds exactly one U+3000, the split succeeds, no name is padding, and symbol,
      U+3000 and name put back together give the original value. */
  lemma {:induction false} UniformSplit(f: Frame<string>)
    requires f.Valid() && |f.columns| > 0 && |f.rows| > 0
    requires f.columns[0] !in f.columns[1..]
    requires HeaderJoiner in f.columns[0]
    requires forall i :: 0 <= i < |f.rows| ==> Occurrences(f.rows[i][0], IdeographicSpace) == 1
    ensures SplitCompound(f).Ok?
    ensures forall i :: 0 <= i < |f.rows| ==>
      var row := SplitCompound(f).value.rows[i];
      row[0].Present? && row[1].Present? && row[0].text + [IdeographicSpace] + row[1].text == f.rows[i][0]
  {
    var parts := FirstColumnParts(f);
    assert |parts[0]| == 2;
    assert Widest(parts) == 2;
    forall i | 0 <= i < |f.rows|
      ensures parts[i][0] + [IdeographicSpace] + parts[i][1] == f.rows[i][0]
    {
      JoinSplit(f.rows[i][0], IdeographicSpace);
    }
  }

  /** The separator the repair splits on: an ordinary space if the symbol holds one,
      U+3000 otherwise. */
  function RepairSeparator(symbol: string): (sep: char)
    ensures sep == Space <==> Space in symbol
    ensures sep == Space || sep == IdeographicSpace
  {
    if Space in symbol then Space else IdeographicSpace
  }

  /** The per-row repair of a symbol cell that still holds a separator: see `RepairSplitsSymbol`. */
  function SplitSymbolName(columns: seq<string>, row: seq<Cell>): (r: Result<seq<Cell>>)
    requires |row| == |columns|
    ensures r.Ok? ==> |r.value| == |row|
    ensures r.Err? ==>
      r.error in [MissingColumn(SymbolLabel), MissingValue(SymbolLabel), MissingColumn(NameLabel)]
  {
    match IndexOf(columns, SymbolLabel)
    case None => Err(MissingColumn(SymbolLabel))
    case Some(s) =>
      match row[s]
      case Missing => Err(MissingValue(SymbolLabel))
      case Present(symbol) =>
        var parts := Split(symbol, RepairSeparator(symbol));
        if |parts| > 1 then
          match IndexOf(columns, NameLabel)
          case None => Err(MissingColumn(NameLabel))
          case Some(n) => Ok(row[s := Present(parts[0])][n := Present(parts[1])])
        else
          Ok(row)
  }

  /** What the repair does to a row. Without a symbol column, or with padding in the symbol
      cell, it fails. A symbol without the separator leaves the row as it is. Otherwise the
      symbol keeps the text before the first separator and the name becomes the next piece:
      neither holds the separator, symbol, separator and name begin the old symbol text and
      are followed there by its end or another separator (the rest is discarded), and no
      other cell changes. */
  lemma RepairSplitsSymbol(columns: seq<string>, row: seq<Cell>)
    requires |row| == |columns|
    ensures var r := SplitSymbolName(columns, row);
      SymbolLabel !in columns ==> r == Err(MissingColumn(SymbolLabel))
    ensures var r := SplitSymbolName(columns, row);
      SymbolLabel in columns ==>
      var s := IndexOf(columns, SymbolLabel).value;
      (row[s].Missing? ==> r == Err(MissingValue(SymbolLabel)))
      && (row[s].Present? ==>
        var text := row[s].text;
        var sep := RepairSeparator(text);
        (sep !in text ==> r == Ok(row))
        && (sep in text && NameLabel !in columns ==> r == Err(MissingColumn(NameLabel)))
        && (sep in text && NameLabel in columns ==>
          var n := IndexOf(columns, NameLabel).value;
          r.Ok? && r.value[s].Present? && r.value[n].Present?
          && var symbol := r.value[s].text;
          var name := r.value[n].text;
          sep !in symbol && sep !in name
          && symbol + [sep] + name <= text
          && (|symbol| + 1 + |name| == |text| || text[|symbol| + 1 + |name|] == sep)
          && forall j :: 0 <= j < |row| && j != s && j != n ==> r.value[j] == row[j]))
  {
    if SymbolLabel in columns {
      var s := IndexOf(columns, SymbolLabel).value;
      if row[s].Present? {
        var text := row[s].text;
        var sep := RepairSeparator(text);
        if sep in text {
          FirstTwoPieces(text, sep);
        }
      }
    }
  }

  /** `apply(split_symbol_name, axis=1)`: every row repaired, or the error of the first row
      that raises. */
  function RepairRows(columns: seq<string>, rows: seq<seq<Cell>>): (r: Result<seq<seq<Cell>>>)
    requires forall i :: 0 <= i < |rows| ==> |rows[i]| == |columns|
    ensures r.Ok? <==> forall i :: 0 <= i < |rows| ==> SplitSymbolName(columns, rows[i]).Ok?
    ensures r.Ok? ==>
      |r.value| == |rows| && forall i :: 0 <= i < |rows| ==> SplitSymbolName(columns, rows[i]) == Ok(r.value[i])
    ensures r.Ok? ==> forall i :: 0 <= i < |rows| ==> |r.value[i]| == |columns|
    ensures r.Err? ==>
      r.error in [MissingColumn(SymbolLabel), MissingValue(SymbolLabel), MissingColumn(NameLabel)]
    ensures r.Err? ==>
      exists i :: 0 <= i < |rows|
        && (forall j :: 0 <= j < i ==> SplitSymbolName(columns, rows[j]).Ok?)
        && SplitSymbolName(columns, rows[i]) == Err(r.error)
  {
    if |rows| == 0 then Ok([])
    else
      var head :- SplitSymbolName(columns, rows[0]);
      var tail := RepairRows(columns, rows[1..]);
      if tail.Err? then
        FailureShifts(columns, rows, tail.error);
        Err(tail.error)
      else
        SuccessShifts(columns, rows, head, tail.value);
        Ok([head] + tail.value)
  }

  /** A first failing row of the rows after a repairable first row is a first failing row
      of all the rows. */
  lemma FailureShifts(columns: seq<string>, rows: seq<seq<Cell>>, e: Error)
    requires forall i :: 0 <= i < |rows| ==> |rows[i]| == |columns|
    requires |rows| > 0 && SplitSymbolName(columns, rows[0]).Ok?
    requires exists i :: (0 <= i < |rows| - 1
      && (forall j :: 0 <= j < i ==> SplitSymbolName(columns, rows[1..][j]).Ok?)
      && SplitSymbolName(columns, rows[1..][i]) == Err(e))
    ensures exists i :: (0 <= i < |rows|
      && (forall j :: 0 <= j < i ==> SplitSymbolName(columns, rows[j]).Ok?)
      && SplitSymbolName(columns, rows[i]) == Err(e))
  {
    var i :| 0 <= i < |rows| - 1
      && (forall j :: 0 <= j < i ==> SplitSymbolName(columns, rows[1..][j]).Ok?)
      && SplitSymbolName(columns, rows[1..][i]) == Err(e);
    forall j | 0 <= j < i + 1 ensures SplitSymbolName(columns, rows[j]).Ok? {
      if j > 0 { assert rows[j] == rows[1..][j - 1]; }
    }
    assert rows[i + 1] == rows[1..][i];
  }

  /** Repairing the first row and then the others row by row repairs every row. */
  lemma SuccessShifts(columns: seq<string>, rows: seq<seq<Cell>>, head: seq<Cell>, rest: seq<seq<Cell>>)
    requires forall i :: 0 <= i < |rows| ==> |rows[i]| == |columns|
    requires |rows| > 0 && SplitSymbolName(columns, rows[0]) == Ok(head)
    requires |rest| == |rows| - 1
    requires forall i :: 0 <= i < |rest| ==> SplitSymbolName(columns, rows[1..][i]) == Ok(rest[i])
    ensures forall i :: 0 <= i < |rows| ==> SplitSymbolName(columns, rows[i]) == Ok(([head] + rest)[i])
  {
    forall i | 0 <= i < |rows| ensures SplitSymbolName(columns, rows[i]) == Ok(([head] + rest)[i]) {
      if i > 0 { assert rows[i] == rows[1..][i - 1]; }
    }
  }

  /** Lines 84-95: the compound split, then the row repair. */
  function CleanTable(f: Frame<string>): (r: Result<Frame<Cell>>)
    requires f.Valid()
    ensures r.Err? ==> !r.error.InvalidMode? && !r.error.EmptyTable?
    ensures r.Ok? ==>
      && r.value.Valid() && r.value.index == f.index && |r.value.rows| == |f.rows| > 0
      && |f.columns| > 0
      && (var names := Split(f.columns[0], HeaderJoiner);
          |names| >= 2 && r.value.columns == [names[0], names[1]] + f.columns[1..])
  {
    var split :- SplitCompound(f);
    var repaired :- RepairRows(split.columns, split.rows);
    Ok(Frame(split.columns, split.index, repaired))
  }

  /** `stock_symbol_crawler` after the fetch: the mode guard, then header adoption, the
      compound split and the row repair. */
  function StockSymbolCrawler(mode: int, raw: seq<seq<string>>): (r: Result<Frame<Cell>>)
    requires Rectangular(raw)
    ensures mode != TseMode && mode != OtcMode ==> r == Err(InvalidMode(mode))
    ensures mode == TseMode || mode == OtcMode ==> !(r.Err? && r.error.InvalidMode?)
    ensures r.Ok? ==>
      && r.value.Valid() && |raw| > 2 && |raw[0]| > 0
      && |r.value.rows| == |raw| - 2
      && (forall i :: 0 <= i < |r.value.rows| ==> r.value.index[i] == i + 2)
      && (var names := Split(raw[0][0], HeaderJoiner);
          |names| >= 2 && r.value.columns == [names[0], names[1]] + raw[0][1..])
  {
    if mode != TseMode && mode != OtcMode then Err(InvalidMode(mode))
    else if |raw| == 0 then Err(EmptyTable)
    else
      var adopted := AdoptHeader(raw, mode).value;
      HeaderAdoption(raw, mode);
      CleanTable(adopted)
  }

  /** A rejected mode is decided before the table is looked at: the outcome is the same
      whatever the page would have held, so no page is needed. */
  lemma InvalidModeIgnoresTable(mode: int, raw: seq<seq<string>>, other: seq<seq<string>>)
    requires Rectangular(raw) && Rectangular(other)
    requires mode != TseMode && mode != OtcMode
    ensures StockSymbolCrawler(mode, raw) == StockSymbolCrawler(mode, other) == Err(InvalidMode(mode))
  {
  }

  /** With the symbol and name columns in front, the repair leaves every later cell alone. */
  lemma RepairKeepsLaterColumns(columns: seq<string>, row: seq<Cell>)
    requires |row| == |columns| >= 2
    requires columns[..2] == [SymbolLabel, NameLabel]
    requires SplitSymbolName(columns, row).Ok?
    ensures SplitSymbolName(columns, row).value[2..] == row[2..]
  {
    assert IndexOf(columns, SymbolLabel) == Some(0);
    assert IndexOf(columns, NameLabel) == Some(1) by {
      assert columns[..1] == [SymbolLabel];
    }
    RepairSplitsSymbol(columns, row);
  }

  /** With the page's own compound header, the cleaning touches only the first two columns:
      every later cell is the text of the cell one column to the left (the compound column is gone). */
  lemma CleanKeepsOtherColumns(f: Frame<string>)
    requires f.Valid() && CleanTable(f).Ok?
    requires Split(f.columns[0], HeaderJoiner)[..2] == [SymbolLabel, NameLabel]
    ensures var g := CleanTable(f).value;
      forall i :: 0 <= i < |g.rows| ==> g.rows[i][2..] == Presents(f.rows[i][1..])
  {
    var split := SplitCompound(f).value;
    var g := CleanTable(f).value;
    assert g.rows == RepairRows(split.columns, split.rows).value;
    assert split.columns[..2] == [SymbolLabel, NameLabel];
    forall i | 0 <= i < |g.rows|
      ensures g.rows[i][2..] == Presents(f.rows[i][1..])
    {
      RepairKeepsLaterColumns(split.columns, split.rows[i]);
    }
  }

  /** When the compound header is the page's own (symbol label, joining glyph, name label),
      the repair touches only the first two columns: every other column of every row holds
      the text of the page's cell one column to the left (the compound column is gone). */
  lemma CrawlerKeepsOtherColumns(mode: int, raw: seq<seq<string>>)
    requires Rectangular(raw)
    requires StockSymbolCrawler(mode, raw).Ok?
    requires Split(raw[0][0], HeaderJoiner)[..2] == [SymbolLabel, NameLabel]
    ensures var f := StockSymbolCrawler(mode, raw).value;
      forall i, j :: 0 <= i < |f.rows| && 2 <= j < |f.columns| ==> f.rows[i][j] == Present(raw[i + 2][j - 1])
  {
    var adopted := AdoptHeader(raw, mode).value;
    HeaderAdoption(raw, mode);
    var f := StockSymbolCrawler(mode, raw).value;
    assert f == CleanTable(adopted).value;
    CleanKeepsOtherColumns(adopted);
    forall i, j | 0 <= i < |f.rows| && 2 <= j < |f.columns|
      ensures f.rows[i][j] == Present(raw[i + 2][j - 1])
    {
      assert f.rows[i][2..][j - 2] == Presents(adopted.rows[i][1..])[j - 2];
    }
  }

  /** A row whose symbol holds no U+3000 is stable under the repair: repairing the repaired
      row changes nothing more. */
  lemma RepairIdempotent(columns: seq<string>, row: seq<Cell>)
    requires |row| == |columns| && SymbolLabel in columns && NameLabel in columns
    requires row[IndexOf(columns, SymbolLabel).value].Present?
    requires IdeographicSpace !in row[IndexOf(columns, SymbolLabel).value].text
    ensures SplitSymbolName(columns, row).Ok?
    ensures var once := SplitSymbolName(columns, row).value;
      SplitSymbolName(columns, once) == Ok(once)
  {
    RepairSplitsSymbol(columns, row);
    var once := SplitSymbolName(columns, row).value;
    RepairSplitsSymbol(columns, once);
    var s := IndexOf(columns, SymbolLabel).value;
    var text := row[s].text;
    if Space in text {
      var symbol := once[s].text;
      assert symbol == text[..|symbol|];
      assert IdeographicSpace !in symbol by {
        forall j | 0 <= j < |symbol| ensures symbol[j] != IdeographicSpace {
          assert symbol[j] == text[j];
        }
      }
    } else {
      assert once == row;
    }
  }

  /** Every row the crawler returns for the page's own header is already repaired: applying
      the repair again changes nothing. */
  lemma CrawlerRowsStayRepaired(mode: int, raw: seq<seq<string>>)
    requires Rectangular(raw)
    requires StockSymbolCrawler(mode, raw).Ok?
    requires Split(raw[0][0], HeaderJoiner)[..2] == [SymbolLabel, NameLabel]
    ensures var f := StockSymbolCrawler(mode, raw).value;
      forall i :: 0 <= i < |f.rows| ==> SplitSymbolName(f.columns, f.rows[i]) == Ok(f.rows[i])
  {
    var adopted := AdoptHeader(raw, mode).value;
    var split := SplitCompound(adopted).value;
    var f := StockSymbolCrawler(mode, raw).value;
    assert f == CleanTable(adopted).value;
    assert f.columns == split.columns && f.rows == RepairRows(split.columns, split.rows).value;
    assert split.columns[..2] == [SymbolLabel, NameLabel];
    assert IndexOf(split.columns, SymbolLabel) == Some(0);
    assert NameLabel == split.columns[1];
    forall i | 0 <= i < |f.rows|
      ensures SplitSymbolName(f.columns, f.rows[i]) == Ok(f.rows[i])
    {
      RepairIdempotent(split.columns, split.rows[i]);
    }
  }

  /** A value whose symbol and name are separated by an ordinary space: the symbol is the
      text before the first space and the name only the text up to the next one, whatever
      follows is discarded (so "1234 Example Co" gives "1234" and "Example"). */
  lemma SpaceSeparatedValue(symbol: string, name: string, rest: string)
    requires Space !in symbol && Space !in name
    ensures var text := symbol + ([Space] + (name + ([Space] + rest)));
      SplitSymbolName([SymbolLabel, NameLabel], [Present(text), Missing]) == Ok([Present(symbol), Present(name)])
  {
    var text := symbol + ([Space] + (name + ([Space] + rest)));
    TwoPlainPieces(symbol, name, rest, Space);
    assert text[|symbol|] == Space;
    assert RepairSeparator(text) == Space;
    assert IndexOf([SymbolLabel, NameLabel], SymbolLabel) == Some(0);
    assert IndexOf([SymbolLabel, NameLabel], NameLabel) == Some(1);
    var row := [Present(text), Missing];
    assert SplitSymbolName([SymbolLabel, NameLabel], row) == Ok(row[0 := Present(symbol)][1 := Present(name)]);
    BothCellsReplaced(row, symbol, name);
  }

  lemma BothCellsReplaced(row: seq<Cell>, symbol: string, name: string)
    requires |row| == 2
    ensures row[0 := Present(symbol)][1 := Present(name)] == [Present(symbol), Present(name)]
  {
  }

  /** When the first header cell is two joiner-free labels joined by the joiner, the cleaned
      table is headed by those two labels, followed by the other header cells in order. */
  lemma CompoundHeaderColumns(mode: int, raw: seq<seq<string>>, first: string, second: string)
    requires Rectangular(raw) && |raw| > 0 && |raw[0]| > 0
    requires raw[0][0] == first + [HeaderJoiner] + second
    requires HeaderJoiner !in first && HeaderJoiner !in second
    requires StockSymbolCrawler(mode, raw).Ok?
    ensures StockSymbolCrawler(mode, raw).value.columns == [first, second] + raw[0][1..]
  {
    SplitPair(first, second, HeaderJoiner);
  }

  /** The page's compound label is the symbol and name labels around the joiner, neither of
      which holds the joiner, and splitting it in place gives the cleaned header. */
  lemma PageHeaderParts()
    ensures PageHeader[0] == SymbolLabel + [HeaderJoiner] + NameLabel
    ensures HeaderJoiner !in SymbolLabel && HeaderJoiner !in NameLabel
    ensures [SymbolLabel, NameLabel] + PageHeader[1..] == CleanedHeader
  {
  }

  /** On the page's own header row the cleaned table is headed by the symbol and name labels,
      followed by the page's other labels in their order. */
  lemma PageHeaderColumns(mode: int, raw: seq<seq<string>>)
    requires Rectangular(raw) && |raw| > 0 && raw[0] == PageHeader
    requires StockSymbolCrawler(mode, raw).Ok?
    ensures StockSymbolCrawler(mode, raw).value.columns == CleanedHeader
  {
    PageHeaderParts();
    CompoundHeaderColumns(mode, raw, SymbolLabel, NameLabel);
  }
}
