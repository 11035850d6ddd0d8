/**
 * `save_to_csv`: the extracted data is laid out as a list of rows in a fixed block
 * order, then each row is written as its cells wrapped in double quotes, joined by
 * commas and ended by a newline. Cells are not escaped. The file itself is not
 * modelled; the text that would be written is.
 */
module Csv {
  import opened Wrappers
  import opened PyDict
  import opened Extract

  /** The `data` dictionary that `get_stock_data` builds and passes to `save_to_csv`. */
  datatype StockData = StockData(
    marketData: MarketData,
    ratios: Dict<string, string>,
    tableData: seq<Table>,
    companyUrl: string,
    relatedLinks: seq<Link>)

  type Row = seq<string>

  // ---------------------------------------------------------------- the rows

  /** The company-information block and the blank row after it. */
  function InfoBlock(d: StockData): seq<Row>
  {
    [["Company Information"],
     ["Company Name", d.marketData.companyName],
     ["Company URL", d.companyUrl],
     ["Market Cap", d.marketData.marketCap],
     ["Current Price", d.marketData.currentPrice],
     ["52 Week High/Low", d.marketData.highLow],
     []]
  }

  /** One `[key, value]` row per ratio, in insertion order. */
  function RatioRows(r: Dict<string, string>): seq<Row>
    requires Valid(r)
  {
    seq(|r.keys|, i requires 0 <= i < |r.keys| => [r.keys[i], r.vals[r.keys[i]]])
  }

  /** The title row, the header row, every row, then a blank row. */
  function TableBlock(t: Table): seq<Row>
  {
    [[t.title], t.headers] + t.rows + [[]]
  }

  function TableBlocks(ts: seq<Table>): seq<Row>
  {
    if ts == [] then [] else TableBlocks(ts[..|ts| - 1]) + TableBlock(ts[|ts| - 1])
  }

  function LinkRows(ls: seq<Link>): seq<Row>
  {
    seq(|ls|, i requires 0 <= i < |ls| => [ls[i].text, ls[i].url])
  }

  /** The related-links block, present only when there are links. */
  function LinksBlock(ls: seq<Link>): seq<Row>
  {
    if ls == [] then [] else [["Related Links"], ["Link Text", "URL"]] + LinkRows(ls)
  }

  /** The `csv_content` list `save_to_csv` builds. */
  function CsvRows(d: StockData): seq<Row>
    requires Valid(d.ratios)
  {
    InfoBlock(d) + [["Key Ratios"]] + RatioRows(d.ratios) + [[]] + TableBlocks(d.tableData) + LinksBlock(d.relatedLinks)
  }

  /** The number of rows the table blocks take. */
  function TableRowCount(ts: seq<Table>): nat
  {
    if ts == [] then 0 else TableRowCount(ts[..|ts| - 1]) + |ts[|ts| - 1].rows| + 3
  }

  /** Table blocks of consecutive tables follow one another. */
  lemma {:induction false} TableBlocksAppend(a: seq<Table>, b: seq<Table>)
    ensures TableBlocks(a + b) == TableBlocks(a) + TableBlocks(b)
  {
    if b == [] {
      assert a + b == a;
    } else {
      var b', t := b[..|b| - 1], b[|b| - 1];
      calc {
        TableBlocks(a + b);
        { assert a + b == (a + b') + [t]; TableBlocksSnoc(a + b', t); }
        TableBlocks(a + b') + TableBlock(t);
        { TableBlocksAppend(a, b'); }
        (TableBlocks(a) + TableBlocks(b')) + TableBlock(t);
        TableBlocks(a) + (TableBlocks(b') + TableBlock(t));
        { assert b == b' + [t]; TableBlocksSnoc(b', t); }
        TableBlocks(a) + TableBlocks(b);
      }
    }
  }

  /** Appending one table appends its block. */
  lemma TableBlocksSnoc(ts: seq<Table>, t: Table)
    ensures TableBlocks(ts + [t]) == TableBlocks(ts) + TableBlock(t)
  {
    assert (ts + [t])[..|ts|] == ts;
  }

  /** The table blocks take `TableRowCount` rows. */
  lemma {:induction false} TableBlocksLength(ts: seq<Table>)
    ensures |TableBlocks(ts)| == TableRowCount(ts)
  {
    if ts != [] {
      TableBlocksLength(ts[..|ts| - 1]);
    }
  }

  /**
   * The fixed layout of the rows: the six company rows and a blank row, the
   * "Key Ratios" row, one row per ratio in insertion order and a blank row, then
   * the table blocks, then the related-links block exactly when there are links
   * (otherwise the rows end with the last blank separator).
   */
  lemma CsvLayout(d: StockData)
    requires Valid(d.ratios)
    ensures var rows := CsvRows(d); var n := |d.ratios.keys|;
      && |rows| == 9 + n + TableRowCount(d.tableData) + (if d.relatedLinks == [] then 0 else 2 + |d.relatedLinks|)
      && rows[..7] == InfoBlock(d)
      && rows[7] == ["Key Ratios"]
      && (forall i :: 0 <= i < n ==> rows[8 + i] == [d.ratios.keys[i], d.ratios.vals[d.ratios.keys[i]]])
      && rows[8 + n] == []
      && rows[9 + n..9 + n + TableRowCount(d.tableData)] == TableBlocks(d.tableData)
      && (d.relatedLinks == [] ==> rows[|rows| - 1] == [])
      && (d.relatedLinks != [] ==>
            rows[|rows| - |d.relatedLinks| - 2..] == [["Related Links"], ["Link Text", "URL"]] + LinkRows(d.relatedLinks))
  {
    var rows := CsvRows(d);
    var n := |d.ratios.keys|;
    TableBlocksLength(d.tableData);
    var head := InfoBlock(d) + [["Key Ratios"]] + RatioRows(d.ratios) + [[]];
    assert |head| == 9 + n;
    assert rows == head + TableBlocks(d.tableData) + LinksBlock(d.relatedLinks);
    if d.relatedLinks == [] && d.tableData != [] {
      var ts := d.tableData;
      assert TableBlocks(ts) == TableBlocks(ts[..|ts| - 1]) + TableBlock(ts[|ts| - 1]);
    }
  }

  /** A table's block sits right after the blocks of the tables before it and right before those after it. */
  lemma TableBlockAt(before: seq<Table>, t: Table, after: seq<Table>)
    ensures TableBlocks(before + [t] + after) == TableBlocks(before) + TableBlock(t) + TableBlocks(after)
  {
    TableBlocksSnoc(before, t);
    TableBlocksAppend(before + [t], after);
  }

  /** `save_to_csv`'s list building: fixed rows, then loops over ratios, tables and links. */
  method BuildRows(data: StockData) returns (csvContent: seq<Row>)
    requires Valid(data.ratios)
    ensures csvContent == CsvRows(data)
  {
    var m := data.marketData;
    csvContent := [];
    csvContent := csvContent + [["Company Information"]];
    csvContent := csvContent + [["Company Name", m.companyName]];
    csvContent := csvContent + [["Company URL", data.companyUrl]];
    csvContent := csvContent + [["Market Cap", m.marketCap]];
    csvContent := csvContent + [["Current Price", m.currentPrice]];
    csvContent := csvContent + [["52 Week High/Low", m.highLow]];
    csvContent := csvContent + [[]];
    assert csvContent == InfoBlock(data);

    csvContent := csvContent + [["Key Ratios"]];
    csvContent := AppendRatioRows(csvContent, data.ratios);
    csvContent := csvContent + [[]];

    csvContent := AppendTableBlocks(csvContent, data.tableData);

    if data.relatedLinks != [] {
      ghost var head := csvContent;
      csvContent := csvContent + [["Related Links"]];
      csvContent := csvContent + [["Link Text", "URL"]];
      csvContent := AppendLinkRows(csvContent, data.relatedLinks);
      assert csvContent == head + LinksBlock(data.relatedLinks);
    }
  }

  /** The ratio loop of `save_to_csv`: one `[key, value]` row per `items()` pair. */
  method AppendRatioRows(rows: seq<Row>, ratios: Dict<string, string>) returns (csvContent: seq<Row>)
    requires Valid(ratios)
    ensures csvContent == rows + RatioRows(ratios)
  {
    csvContent := rows;
    ghost var ratioRows := RatioRows(ratios);
    var items := Items(ratios);
    var i := 0;
    while i < |items|
      invariant 0 <= i <= |items|
      invariant csvContent == rows + ratioRows[..i]
    {
      var (key, value) := items[i];
      assert ratioRows[..i + 1] == ratioRows[..i] + [[key, value]];
      csvContent := csvContent + [[key, value]];
      i := i + 1;
    }
    assert ratioRows[..i] == ratioRows;
  }

  /** The table loop of `save_to_csv`: title row, header row, the rows, a blank row, per table. */
  method AppendTableBlocks(rows: seq<Row>, tables: seq<Table>) returns (csvContent: seq<Row>)
    ensures csvContent == rows + TableBlocks(tables)
  {
    csvContent := rows;
    ghost var done: seq<Table> := [];
    var t := 0;
    while t < |tables|
      invariant 0 <= t <= |tables|
      invariant done == tables[..t]
      invariant csvContent == rows + TableBlocks(done)
    {
      var table := tables[t];
      csvContent := AppendTable(csvContent, table);
      TableBlocksSnoc(done, table);
      assert tables[..t + 1] == done + [table];
      done := done + [table];
      t := t + 1;
    }
    assert done == tables;
  }

  /** One table's rows in `save_to_csv`: its title, its headers, its rows, then a blank row. */
  method AppendTable(rows: seq<Row>, table: Table) returns (csvContent: seq<Row>)
    ensures csvContent == rows + TableBlock(table)
  {
    csvContent := rows;
    csvContent := csvContent + [[table.title]];
    csvContent := csvContent + [table.headers];
    csvContent := csvContent + table.rows;
    csvContent := csvContent + [[]];
  }

  /** The link loop of `save_to_csv`: one `[text, url]` row per link. */
  method AppendLinkRows(rows: seq<Row>, links: seq<Link>) returns (csvContent: seq<Row>)
    ensures csvContent == rows + LinkRows(links)
  {
    csvContent := rows;
    ghost var linkRows := LinkRows(links);
    var k := 0;
    while k < |links|
      invariant 0 <= k <= |links|
      invariant csvContent == rows + linkRows[..k]
    {
      var link := links[k];
      assert linkRows[..k + 1] == linkRows[..k] + [[link.text, link.url]];
      csvContent := csvContent + [[link.text, link.url]];
      k := k + 1;
    }
    assert linkRows[..k] == linkRows;
  }



  // ---------------------------------------------------------------- the text

  /** `f'"{cell}"'`: the cell between two double quotes, with nothing escaped. */
  function Quote(cell: string): string
  {
    "\"" + cell + "\""
  }

  /** `','.join(f'"{cell}"' for cell in row)` */
  function JoinQuoted(row: Row): string
  {
    if row == [] then ""
    else if |row| == 1 then Quote(row[0])
    else Quote(row[0]) + "," + JoinQuoted(row[1..])
  }

  /** One line of the file. */
  function RenderLine(row: Row): string
  {
    JoinQuoted(row) + "\n"
  }

  /** The whole file: its lines one after another. */
  function Render(rows: seq<Row>): string
  {
    if rows == [] then "" else RenderLine(rows[0]) + Render(rows[1..])
  }

  lemma {:induction false} RenderAppend(a: seq<Row>, b: seq<Row>)
    ensures Render(a + b) == Render(a) + Render(b)
  {
    if a == [] {
      assert a + b == b;
    } else {
      assert (a + b)[1..] == a[1..] + b;
      RenderAppend(a[1..], b);
    }
  }

  /** The writing loop: one `f.write` per row. */
  method WriteRows(rows: seq<Row>) returns (content: string)
    ensures content == Render(rows)
  {
    content := "";
    var i := 0;
    while i < |rows|
      invariant 0 <= i <= |rows|
      invariant content == Render(rows[..i])
    {
      RenderAppend(rows[..i], [rows[i]]);
      assert rows[..i + 1] == rows[..i] + [rows[i]];
      content := content + RenderLine(rows[i]);
      i := i + 1;
    }
    assert rows[..i] == rows;
  }

  // ---------------------------------------------------------------- reading it back

  /** The first index of `c` in `s`, or -1. */
  function IndexOf(s: string, c: char): (i: int)
    ensures -1 <= i < |s|
    ensures 0 <= i ==> s[i] == c && c !in s[..i]
    ensures i < 0 ==> c !in s
  {
    if s == [] then -1
    else if s[0] == c then 0
    else var j := IndexOf(s[1..], c); if j < 0 then -1 else j + 1
  }

  /** Reads `"a","b",...,"z"` back into its cells. */
  function ParseCells(s: string): Option<Row>
    decreases |s|
  {
    if |s| < 2 || s[0] != '"' then None
    else
      var j := IndexOf(s[1..], '"');
      if j < 0 then None
      else
        var cell := s[1..1 + j];
        var rest := s[2 + j..];
        if rest == "" then Some([cell])
        else if rest[0] != ',' then None
        else match ParseCells(rest[1..])
          case None => None
          case Some(cells) => Some([cell] + cells)
  }

  /** Reads one line (without its newline) back into a row; the empty line is the empty row. */
  function ParseLine(line: string): Option<Row>
  {
    if line == "" then Some([]) else ParseCells(line)
  }

  /** Splits text at newlines and reads every line back. */
  function ParseCsv(s: string): Option<seq<Row>>
    decreases |s|
  {
    if s == "" then Some([])
    else
      var i := IndexOf(s, '\n');
      if i < 0 then None
      else match (ParseLine(s[..i]), ParseCsv(s[i + 1..]))
        case (Some(row), Some(rows)) => Some([row] + rows)
        case _ => None
  }

  /** A cell that the unescaped format can carry: no double quote and no newline in it. */
  predicate Plain(cell: string)
  {
    '"' !in cell && '\n' !in cell
  }

  predicate PlainRow(row: Row)
  {
    forall c :: c in row ==> Plain(c)
  }

  lemma IndexOfFirst(p: string, c: char, q: string)
    requires c !in p
    ensures IndexOf(p + [c] + q, c) == |p|
  {
    var s := p + [c] + q;
    assert s[|p|] == c;
    assert forall k :: 0 <= k < |p| ==> s[k] == p[k];
  }

  /** A last quoted cell reads back as itself. */
  lemma ParseLastCell(c: string)
    requires '"' !in c
    ensures ParseCells(Quote(c)) == Some([c])
  {
    var s := Quote(c);
    IndexOfFirst(c, '"', "");
    assert s[1..] == c + ['"'] + "";
    assert s[1..1 + |c|] == c;
    assert s[2 + |c|..] == "";
  }

  /** A quoted cell followed by a comma reads back as itself, then the rest is read. */
  lemma ParseNextCell(c: string, tail: string)
    requires '"' !in c
    ensures ParseCells(Quote(c) + "," + tail) ==
      match ParseCells(tail) case None => None case Some(cells) => Some([c] + cells)
  {
    var s := Quote(c) + "," + tail;
    IndexOfFirst(c, '"', "," + tail);
    assert s[1..] == c + ['"'] + ("," + tail);
    assert s[1..1 + |c|] == c;
    assert s[2 + |c|..] == "," + tail;
    assert s[2 + |c|..][1..] == tail;
  }

  /** The cells of a row of plain cells come back from its joined text. */
  lemma {:induction false} JoinQuotedRoundTrip(row: Row)
    requires row != [] && PlainRow(row)
    ensures ParseCells(JoinQuoted(row)) == Some(row)
  {
    var c := row[0];
    assert Plain(c);
    if |row| == 1 {
      ParseLastCell(c);
      assert [c] == row;
    } else {
      var tail := row[1..];
      assert PlainRow(tail);
      assert JoinQuoted(row) == Quote(c) + "," + JoinQuoted(tail);
      JoinQuotedRoundTrip(tail);
      ParseNextCell(c, JoinQuoted(tail));
      assert [c] + tail == row;
    }
  }

  /** A joined row of plain cells is one line: it holds no newline. */
  lemma {:induction false} JoinQuotedOneLine(row: Row)
    requires PlainRow(row)
    ensures '\n' !in JoinQuoted(row)
  {
    if row != [] {
      assert Plain(row[0]);
      assert '\n' !in Quote(row[0]);
      if |row| > 1 {
        assert PlainRow(row[1..]);
        JoinQuotedOneLine(row[1..]);
      }
    }
  }

  /**
   * The written text reads back into exactly the rows it was written from, as long
   * as no cell holds a double quote or a newline (the format escapes neither).
   */
  lemma {:induction false} RenderRoundTrip(rows: seq<Row>)
    requires forall r :: r in rows ==> PlainRow(r)
    ensures ParseCsv(Render(rows)) == Some(rows)
  {
    if rows != [] {
      var row, line := rows[0], JoinQuoted(rows[0]);
      JoinQuotedOneLine(row);
      assert ParseLine(line) == Some(row) by {
        if row != [] {
          assert line[0] == '"';
          JoinQuotedRoundTrip(row);
        }
      }
      assert Render(rows) == line + "\n" + Render(rows[1..]);
      ParseCsvStep(line, Render(rows[1..]));
      RenderRoundTrip(rows[1..]);
      assert [row] + rows[1..] == rows;
    }
  }

  /** The text up to the first newline is read as one line, the text after it as the rest. */
  lemma ParseCsvStep(line: string, rest: string)
    requires '\n' !in line
    ensures ParseCsv(line + "\n" + rest) ==
      match (ParseLine(line), ParseCsv(rest))
      case (Some(row), Some(rows)) => Some([row] + rows)
      case _ => None
  {
    var s := line + "\n" + rest;
    IndexOfFirst(line, '\n', rest);
    assert s[..|line|] == line;
    assert s[|line| + 1..] == rest;
  }

  /**
   * Without escaping, different rows can give the same line: a cell holding `","`
   * reads as two cells.
   */
  lemma QuotesAreNotEscaped(a: string, b: string)
    ensures RenderLine([a + "\",\"" + b]) == RenderLine([a, b])
  {
    assert JoinQuoted([a, b]) == Quote(a) + "," + JoinQuoted([b]);
    assert JoinQuoted([a, b]) == "\"" + (a + "\",\"" + b) + "\"";
  }
}
