/**
 * `get_stock_data`: search for the company, parse its page, name the output file
 * after the company and the clock, and write the CSV. The two HTTP requests, the
 * HTML parser, the clock and the file are not modelled: the search answer, what
 * the page's queries select, the ISO clock reading and the output directory are
 * inputs, and the text of the CSV file is part of the result.
 */
module StockTool {
  import opened Wrappers
  import opened Text
  import opened Extract
  import opened Csv

  const ScreenerBaseUrl := "https://www.screener.in"
  const NoResults := "No results found for the given stock name."
  const SavedMessage := "Data fetched and saved successfully."

  // ---------------------------------------------------------------- the file name

  /** `now.isoformat().replace(':', '-').replace('.', '-')` for the clock reading `iso`. */
  function Timestamp(iso: string): string
  {
    ReplaceChar(ReplaceChar(iso, ':', '-'), '.', '-')
  }

  /** `f"{company_name.replace(' ', '_')}_{timestamp}.csv"` */
  function FileName(companyName: string, iso: string): string
  {
    ReplaceChar(companyName, ' ', '_') + "_" + Timestamp(iso) + ".csv"
  }

  predicate IsDigit(c: char)
  {
    '0' <= c <= '9'
  }

  /** The character `isoformat()` puts at position `i`: a fixed separator, or any digit. */
  predicate IsoCharAt(t: string, i: int)
    requires 0 <= i < |t|
  {
    if i == 4 || i == 7 then t[i] == '-'
    else if i == 10 then t[i] == 'T'
    else if i == 13 || i == 16 then t[i] == ':'
    else if i == 19 then t[i] == '.'
    else IsDigit(t[i])
  }

  /** What `datetime.isoformat()` returns for a naive date-time: `YYYY-MM-DDTHH:MM:SS`, then `.ffffff` unless the microseconds are zero. */
  predicate IsoFormat(t: string)
  {
    (|t| == 19 || |t| == 26) && forall i :: 0 <= i < |t| ==> IsoCharAt(t, i)
  }

  /**
   * The file name is the company name with spaces turned into underscores, an
   * underscore, the clock reading with no `:` or `.` left in it, and `.csv`.
   */
  lemma FileNameShape(companyName: string, iso: string)
    ensures var f := FileName(companyName, iso); var n := |companyName|;
      && |f| == n + |iso| + 5
      && f[..n] == ReplaceChar(companyName, ' ', '_') && ' ' !in f[..n]
      && f[n] == '_'
      && f[n + 1..n + 1 + |iso|] == Timestamp(iso) && ':' !in Timestamp(iso) && '.' !in Timestamp(iso)
      && f[n + 1 + |iso|..] == ".csv"
  {
    var f := FileName(companyName, iso);
    var n := |companyName|;
    ReplaceCharRemoves(companyName, ' ', '_');
    ReplaceCharRemoves(iso, ':', '-');
    ReplaceCharRemoves(ReplaceChar(iso, ':', '-'), '.', '-');
    assert f[..n] == ReplaceChar(companyName, ' ', '_');
    assert f[n + 1..n + 1 + |iso|] == Timestamp(iso);
  }

  /**
   * Two runs whose clock readings differ write to different files: the replaced
   * separators sit at fixed positions, so the digits still tell the readings apart.
   */
  lemma FileNamePerRun(companyName: string, t1: string, t2: string)
    requires IsoFormat(t1) && IsoFormat(t2) && t1 != t2
    ensures FileName(companyName, t1) != FileName(companyName, t2)
  {
    var n := |companyName|;
    FileNameShape(companyName, t1);
    FileNameShape(companyName, t2);
    if |t1| == |t2| {
      var i :| 0 <= i < |t1| && t1[i] != t2[i];
      assert IsoCharAt(t1, i) && IsoCharAt(t2, i);
      assert Timestamp(t1)[i] != Timestamp(t2)[i];
      assert FileName(companyName, t1)[n + 1 + i] != FileName(companyName, t2)[n + 1 + i];
    }
  }

  /**
   * The name part is not one-to-one: a company name and the same name with its
   * spaces already turned into underscores give the same file.
   */
  lemma SpaceAndUnderscoreCollide(companyName: string, iso: string)
    ensures FileName(companyName, iso) == FileName(ReplaceChar(companyName, ' ', '_'), iso)
  {
    var once := ReplaceChar(companyName, ' ', '_');
    ReplaceCharRemoves(companyName, ' ', '_');
    assert ReplaceChar(once, ' ', '_') == once;
  }

  // ---------------------------------------------------------------- the tool

  /** One entry of the search answer. */
  datatype SearchHit = SearchHit(url: string)

  /** What each extractor's queries select on the fetched company page. */
  datatype Page = Page(
    heading: Option<string>,
    marketItems: seq<Item>,
    ratioSections: seq<seq<Item>>,
    tables: seq<RawTable>,
    anchors: seq<Anchor>)

  /** The tool's answer: the saved data with the path and the text written there, or `{"error": ...}`. */
  datatype Outcome = Saved(message: string, filePath: string, data: StockData, csv: string) | Error(error: string)

  /**
   * `get_stock_data`: an empty search answer and a page without its heading or with
   * an incomplete market entry are reported as errors; otherwise every extractor runs
   * on the first hit's page and the CSV of the result is written under a name built
   * from the company name and the clock reading.
   */
  method GetStockData(hits: seq<SearchHit>, page: Page, isoNow: string, outputDir: string) returns (r: Outcome)
    ensures hits == [] ==> r == Error(NoResults)
    ensures hits != [] && MarketSpec(page.heading, page.marketItems).Failure? ==> r == Error(NoneText)
    ensures hits != [] && MarketSpec(page.heading, page.marketItems).Success? ==>
      && r.Saved? && r.message == SavedMessage
      && r.data.marketData == MarketSpec(page.heading, page.marketItems).value
      && r.data.ratios == RatioFold(Flatten(page.ratioSections))
      && TablesFrom(page.tables, r.data.tableData)
      && r.data.companyUrl == ScreenerBaseUrl + hits[0].url
      && r.data.relatedLinks == LinksOf(ScreenerBaseUrl, page.anchors)
      && r.filePath == outputDir + "/" + FileName(r.data.marketData.companyName, isoNow)
      && r.csv == Render(CsvRows(r.data))
  {
    if hits == [] {
      return Error(NoResults);
    }
    var companyUrl := hits[0].url;
    var marketData := ParseMarketData(page.heading, page.marketItems);
    if marketData.Failure? {
      MarketSpecError(page.heading, page.marketItems);
      return Error(marketData.error);
    }
    var ratios := ParseRatios(page.ratioSections);
    var tableData := ParseTables(page.tables);
    var relatedLinks := ParseLinks(page.anchors, ScreenerBaseUrl);
    var data := StockData(marketData.value, ratios, tableData, ScreenerBaseUrl + companyUrl, relatedLinks);
    var filename := FileName(data.marketData.companyName, isoNow);
    var filepath := outputDir + "/" + filename;
    var rows := BuildRows(data);
    var csv := WriteRows(rows);
    r := Saved(SavedMessage, filepath, data, csv);
  }

  /** The only exception the extractors raise is the missing-element one. */
  lemma MarketSpecError(heading: Option<string>, items: seq<Item>)
    requires MarketSpec(heading, items).Failure?
    ensures MarketSpec(heading, items).error == NoneText
  {
    if heading.Some? {
      MarketFoldFails(Trim(heading.value), items);
    }
  }
}
