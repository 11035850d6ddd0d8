# Screener stock-data tool: a Dafny model

This project models the logic inside `server.py`, an MCP server with two tools.

- `get_stock_data` looks a company up on screener.in and reads the company page. It extracts four things: the market snapshot (`parse_market_data`), the ratio dictionary (`parse_ratios`), the financial tables (`parse_tables`) and the company links (`parse_links`). It then writes everything to a CSV file (`save_to_csv`). The file is named after the company and the current time.
- `get_broker_data` lists broker holdings. It reads them from a local HTTP API, and falls back to an SQLite table when the request fails. On the database path it can keep only the latest row per broker.

The network, the HTML parser, the clock and the file system are not modelled. What they would deliver becomes an input:

- the search answer;
- what each CSS query selects on the page, where an element that is not found is `None`;
- the API's JSON object;
- the table's rows;
- the clock readings.

The text that would be written to the CSV file is part of the result.

Modules, one per file:

- `Wrappers` (`wrappers.dfy`): `Option` and `Result`.
- `Text` (`text.dfy`): the Python string operations the code uses. These are `str.strip()` (over Python's whitespace set), substring `in`, single-character `replace`, and `<` on strings (code-point lexicographic order).
- `PyDict` (`pydict.dfy`): a Python `dict` with insertion order. Assigning to a key that is already present keeps that key's position.
- `Extract` (`extract.dfy`): the four page extractors. The market-data, ratio and link loops are each proved equal to a fold, with lemmas about the fold. The table loop is proved against a predicate that relates each raw table to its extracted table.
- `Csv` (`csv.dfy`): the rows `save_to_csv` builds, the text it writes, and a reader for that text.
- `Broker` (`broker.dfy`): both branches of `get_broker_data`.
- `StockTool` (`stock.dfy`): the file-name derivation and the whole `get_stock_data` flow.

Two properties of the code worth knowing:

- No blank row follows the related-links block, unlike every other block of the CSV file (server.py:130-134).
- The file name does not identify the company, because a space in the company name and an underscore give the same name (server.py:176; `StockTool.SpaceAndUnderscoreCollide`).

## Model

| member | source | states |
|---|---|---|
| Text.TrimStartSpec | server.py:43 | The left strip drops exactly a leading run of whitespace: the result is a suffix of the input, starts with a non-space, and everything dropped is whitespace. |
| Text.TrimEndSpec | server.py:43 | The right strip drops exactly a trailing run of whitespace: the result is a prefix of the input, ends with a non-space, and everything dropped is whitespace. |
| Text.TrimIsCore | server.py:46-47 | `strip()` returns a contiguous slice of the input bounded by whitespace on both sides. The slice neither starts nor ends with whitespace, and it is empty exactly when the input is all whitespace. |
| Text.TrimIdempotent | server.py:66-67 | Stripping an already stripped text changes nothing. |
| Text.ContainsIffOccurs | server.py:49 | The substring test `sub in s` holds exactly when `sub` occurs in `s` at some position. |
| Text.ReplaceChar | server.py:175 | `replace` of one character keeps the length and swaps exactly the matching positions. |
| Text.ReplaceCharRemoves | server.py:175-176 | After replacing a character, none of it is left, and every other character is present exactly as before. |
| Text.StrLessIrreflexive | server.py:244 | No date-time string is earlier than itself, so an equal date-time never replaces the stored entry. |
| Text.StrLessTransitive | server.py:244 | Python's string `<` is transitive. |
| Text.StrLessTotal | server.py:244 | Of two different strings, one is `<` the other. |
| PyDict.Empty | server.py:60 | A fresh dict is valid and has no keys. |
| PyDict.Put | server.py:69 | Assigning `d[k] = v` keeps the dict well formed and maps `k` to `v`, with every other key's value unchanged. An existing key keeps its position in the key order; a new key is appended at the end. |
| PyDict.Items | server.py:120 | `items()` yields each key of the dict exactly once, and no other key, paired with its value. The keys come in insertion order. |
| Extract.Store | server.py:49-54 | Storing a market value sets only the field its label selects, and the company name stays as it was. |
| Extract.ParseMarketData | server.py:34-56 | The loop returns the market-data fold of the heading and the `.company-ratios li` entries. |
| Extract.MarketFoldFails | server.py:43-47 | The loop over the `.company-ratios li` entries raises exactly when some entry lacks its `.name` or `.number` element, and the error is `'NoneType' object has no attribute 'text'`. A missing `h1` raises the same error before the loop (`StockTool.MarketSpecError`). |
| Extract.MarketFailsFromHere | server.py:46-47 | One incomplete entry anywhere makes the whole extraction fail with that error. |
| Extract.MarketFoldLastWrite | server.py:36-54 | On success the company name is the stripped heading. Each of the three fields is `""` when no label selects it, and otherwise holds the stripped value of the last entry that selects it. "Market Cap" is tested before "Current Price", and that before "52 Week High / Low". |
| Extract.RatioFold | server.py:58-70 | The ratio dictionary holds only non-empty labels without "View more", each mapped to a non-empty value. |
| Extract.RatioKeys | server.py:61-69 | A label is a key of the ratio dictionary exactly when some entry has both elements, both texts non-empty after stripping, and no "View more" in the label. |
| Extract.RatioValueIsLast | server.py:69 | A label repeated across entries or sections maps to the value of its last accepted entry. |
| Extract.RatioKeysKeepPosition | server.py:61-69 | Later entries never reorder or remove the keys inserted by earlier ones. |
| Extract.ParseRatios | server.py:58-70 | The nested loop over sections and their `li` entries returns the fold over all entries in order. |
| Extract.ParseSection | server.py:62-69 | The inner loop over one section's entries continues the fold from the dictionary built so far. |
| Extract.ParseTables | server.py:72-93 | There is one table per selected table, in order. The title is the stripped preceding `h2`, or `""` when there is none. The headers and every body row are kept cell by cell, stripped and in order. |
| Extract.ParseLinks | server.py:95-106 | The loop returns the links the anchors give in order. |
| Extract.LinksOfFilterMap | server.py:98-105 | Each anchor contributes one link or none, independently of the others and in order. The link's text is the stripped text and its URL is the base plus the href. |
| Extract.LinksOfSound | server.py:99-104 | Every link has non-empty stripped text, and its URL is the base followed by an href that contains `/company/` and no `#`. |
| Csv.CsvLayout | server.py:110-134 | The row layout is seven company rows ending in a blank row, "Key Ratios", one `[key, value]` row per ratio in insertion order, and a blank row. Then come the table blocks, and the related-links block exactly when there are links. Also gives the total row count. |
| Csv.TableBlocksAppend | server.py:124-128 | The blocks of consecutive tables follow one another in order. |
| Csv.TableBlockAt | server.py:124-128 | Table `k`'s block is its title row, header row, rows and a blank row, placed right after the blocks of the tables before it. |
| Csv.BuildRows | server.py:108-134 | The list-building code returns exactly the laid-out rows. |
| Csv.AppendRatioRows | server.py:120-121 | The ratio loop appends one `[key, value]` row per dictionary item, in insertion order. |
| Csv.AppendTableBlocks | server.py:124-128 | The table loop appends every table's block, in table order. |
| Csv.AppendTable | server.py:125-128 | One table adds its title row, its header row, its body rows and a blank row. |
| Csv.AppendLinkRows | server.py:133-134 | The link loop appends one `[text, url]` row per link, in order. |
| Csv.RenderAppend | server.py:136-138 | The written text of two row lists is the concatenation of their texts. |
| Csv.WriteRows | server.py:136-138 | The write loop produces each row's quoted, comma-joined line followed by a newline, in order. |
| Csv.RenderRoundTrip | server.py:136-138 | If no cell holds a double quote or a newline, reading the written text back gives exactly the rows written. |
| Csv.QuotesAreNotEscaped | server.py:138 | Cells are not escaped, so for any texts `a` and `b` the one cell `a","b` writes the same line as the two cells `a` and `b`. |
| Broker.ApiSelection | server.py:212-220 | Without a broker name, every broker of the API answer is listed in the answer's order, the k-th stamped with the k-th clock reading. With a non-empty name, at most one entry is listed: one if the answer has that broker, none otherwise. |
| Broker.FromApi | server.py:212-224 | The API loop with its `continue` returns that selection, whatever `fetch_only_latest` is. |
| Broker.Query | server.py:231-238 | The query returns at most as many rows as the table holds. Each is a table row, and of the requested broker when a non-empty name is given. |
| Broker.QueryComplete | server.py:231-238 | Every table row of the requested broker is returned, and every row when no name is given. |
| Broker.QueryInOrder | server.py:231-238 | The rows come back in table order: the rows of two consecutive stretches of the table are the first stretch's rows followed by the second's. |
| Broker.QueryOneRow | server.py:231-238 | A single row is returned exactly when it is wanted. |
| Broker.LatestFold | server.py:242-245 | The `latest_data` dictionary is a valid insertion-ordered dict. |
| Broker.LatestKeys | server.py:243-245 | A broker is a key of `latest_data` exactly when some fetched row belongs to it. |
| Broker.WinnerUnique | server.py:244 | At most one row is the selected row for a broker. |
| Broker.LatestIsWinner | server.py:243-245 | Each broker's entry is the row whose date-time no later row exceeds and which is strictly later than every earlier row. So of several equal latest date-times, the first row wins. |
| Broker.LatestKeysKeepPosition | server.py:243-245 | Later rows never reorder the brokers: brokers are listed in order of their first row. |
| Broker.LatestRecords | server.py:246-249 | One record per broker in first-appearance order, carrying the stored holdings and date-time. No broker appears twice. |
| Broker.LatestPerBroker | server.py:241-245 | The `fetch_only_latest` loop returns the `latest_data` fold of the fetched rows. |
| Broker.FromDb | server.py:226-254 | The database branch returns the latest record per broker when `fetch_only_latest` is set, and otherwise every fetched row. |
| Broker.GetBrokerData | server.py:192-254 | The API result when the request succeeds, and the database result otherwise. |
| StockTool.FileNameShape | server.py:175-176 | The file name is the company name with spaces turned into underscores, `_`, the ISO timestamp with no `:` or `.` left, and `.csv`. |
| StockTool.FileNamePerRun | server.py:175-176 | Two runs with different ISO clock readings never write to the same file. |
| StockTool.SpaceAndUnderscoreCollide | server.py:176 | Any company name and the same name with its spaces turned into underscores map to the same file name. |
| StockTool.MarketSpecError | server.py:43-47 | When the market data cannot be extracted, the only possible error is the missing-element message. |
| StockTool.GetStockData | server.py:140-189 | An empty search answer gives the "No results found" error, and a page missing its `h1` or an entry element gives the attribute error. Otherwise the result carries the saved message and the data the four extractors return. The company URL is the base plus the first hit's URL. The path is the output directory plus the derived file name, and the file text is the rendering of the CSV rows. |

## Left out

- The HTTP requests and their headers, timeout and status handling, and the JSON-or-text switch in `make_screener_request` are not modelled. The search answer and the page's selected elements are inputs.
- BeautifulSoup's parsing and its CSS selectors are not modelled. What `select`, `select_one`, `find` and `find_previous` return is taken as given.
- `Path.home()`, `mkdir`, and opening and writing the file are not modelled. The output directory is an input and the written text is part of the result.
- `datetime.now()` is not modelled. It is the `isoNow` input for `get_stock_data` and a `clock` function of the call number for `get_broker_data`.
- For SQLite, the fetched rows are the table's rows in table order. SQLite guarantees no order for a query without `ORDER BY`. Connection and query failures are not modelled.
- FastMCP registration and the stdio server loop are not modelled.
- In `get_stock_data`, the generic `except Exception` is modelled only for the exceptions the modelled code can raise: the missing-element `AttributeError`. Network and file errors are outside the model. So is a search answer that is not a list of objects with `url`.
- In `get_broker_data`, a failed API request is the `None` case of the `api` input. The API's holdings are an opaque type parameter.
- Text.IsSpace: covers Python's `str.isspace` set for the code points listed in `text.dfy`. Characters are compared by code point, with no Unicode normalisation.
- Csv.RenderRoundTrip: requires cells without `"` or a newline, because the written format cannot represent them. `Csv.QuotesAreNotEscaped` shows the ambiguity.
- StockTool.GetStockData: the file path is the output directory, `/` and the file name joined as plain text. pathlib's `/` is not modelled: a name starting with `/` would replace the directory, and `//` or `/./` would be collapsed. The separator is the POSIX one.
- In `get_broker_data`, an API answer that decodes to JSON but is not an object makes `api_data.items()` raise `AttributeError`. That is not a `RequestException`, so the code does not fall back to the database and the tool raises. The model's API input is always an object, so this case is not represented.
- The file is opened in text mode, so each written `\n` becomes the platform's line separator. The model's text uses `\n`, as on POSIX systems.
- Broker.FromApi: the `fetch_only_latest` flag has no effect on the API branch. This matches the code, where both arms of the conditional return the same list.
