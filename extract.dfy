/**
 * The page extractors of the screener server: `parse_market_data`, `parse_ratios`,
 * `parse_tables` and `parse_links`. The HTML tree queries are not modelled; each
 * extractor receives what its queries select, in document order, as raw text
 * (before `.strip()`), and a query that may find nothing gives an `Option`.
 */
module Extract {
  import opened Wrappers
  import opened Text
  import opened PyDict

  /** The message of the AttributeError raised by reading `.text` of a missing element. */
  const NoneText := "'NoneType' object has no attribute 'text'"

  /** One `li` entry: the text of its label (`.name`) element and of its value (`.number`) element, `None` when not found. */
  datatype Item = Item(name: Option<string>, number: Option<string>)

  /** One `table.data-table`: the nearest preceding `h2` (if any), its `thead th` texts and its `tbody tr` rows of `td` texts. */
  datatype RawTable = RawTable(heading: Option<string>, headerCells: seq<string>, bodyRows: seq<seq<string>>)

  /** One `a` element: its `href` attribute (`""` when absent, as `link.get('href', '')`) and its text. */
  datatype Anchor = Anchor(href: string, text: string)

  datatype MarketData = MarketData(companyName: string, marketCap: string, currentPrice: string, highLow: string)

  datatype Table = Table(title: string, headers: seq<string>, rows: seq<seq<string>>)

  datatype Link = Link(text: string, url: string)

  /** The stripped label text of an entry, `""` when there is no label element. */
  function LabelOf(it: Item): string
  {
    if it.name.Some? then Trim(it.name.value) else ""
  }

  /** The stripped value text of an entry, `""` when there is no value element. */
  function ValueOf(it: Item): string
  {
    if it.number.Some? then Trim(it.number.value) else ""
  }

  predicate Complete(it: Item)
  {
    it.name.Some? && it.number.Some?
  }

  // ---------------------------------------------------------------- parse_market_data

  /** The market-data field an entry's label selects, by the first test of the if/elif chain it passes. */
  datatype Slot = MarketCapSlot | CurrentPriceSlot | HighLowSlot | NoSlot

  function SlotOf(text: string): Slot
  {
    if Contains(text, "Market Cap") then MarketCapSlot
    else if Contains(text, "Current Price") then CurrentPriceSlot
    else if Contains(text, "52 Week High / Low") then HighLowSlot
    else NoSlot
  }

  function Field(d: MarketData, slot: Slot): string
  {
    match slot
    case MarketCapSlot => d.marketCap
    case CurrentPriceSlot => d.currentPrice
    case HighLowSlot => d.highLow
    case NoSlot => ""
  }

  /** One pass of the loop body: the selected field takes the value, every other field is kept. */
  function Store(d: MarketData, slot: Slot, v: string): (r: MarketData)
    ensures r.companyName == d.companyName
    ensures slot != NoSlot ==> Field(r, slot) == v
    ensures forall s :: s != slot ==> Field(r, s) == Field(d, s)
  {
    match slot
    case MarketCapSlot => d.(marketCap := v)
    case CurrentPriceSlot => d.(currentPrice := v)
    case HighLowSlot => d.(highLow := v)
    case NoSlot => d
  }

  /** The dictionary after the loop over `items`, or the AttributeError a missing element raised. */
  function MarketFold(name: string, items: seq<Item>): Result<MarketData>
  {
    if items == [] then Success(MarketData(name, "", "", ""))
    else
      var last := items[|items| - 1];
      match MarketFold(name, items[..|items| - 1])
      case Failure(e) => Failure(e)
      case Success(d) =>
        if !Complete(last) then Failure(NoneText)
        else Success(Store(d, SlotOf(LabelOf(last)), ValueOf(last)))
  }

  /** `parse_market_data` as a function of the `h1` text and the `.company-ratios li` entries. */
  function MarketSpec(heading: Option<string>, items: seq<Item>): Result<MarketData>
  {
    if heading.None? then Failure(NoneText) else MarketFold(Trim(heading.value), items)
  }

  /** The label of the entry at `i` selects `slot`. */
  ghost predicate SelectsAt(items: seq<Item>, slot: Slot, i: int)
  {
    0 <= i < |items| && SlotOf(LabelOf(items[i])) == slot
  }

  /** The entry at `i` is the last one whose label selects `slot`. */
  ghost predicate LastFor(items: seq<Item>, slot: Slot, i: int)
  {
    SelectsAt(items, slot, i) && forall j :: i < j ==> !SelectsAt(items, slot, j)
  }

  /** The entry at `i` lacks its label or its value element. */
  ghost predicate MissingAt(items: seq<Item>, i: int)
  {
    0 <= i < |items| && !Complete(items[i])
  }

  /** The loop raises exactly when some entry lacks its label or its value element. */
  lemma {:induction false} MarketFoldFails(name: string, items: seq<Item>)
    ensures MarketFold(name, items).Failure? <==> exists i :: MissingAt(items, i)
    ensures MarketFold(name, items).Failure? ==> MarketFold(name, items).error == NoneText
  {
    if items != [] {
      var n := |items| - 1;
      var pre := items[..n];
      MarketFoldFails(name, pre);
      if MarketFold(name, pre).Failure? {
        var i :| MissingAt(pre, i);
        assert items[i] == pre[i];
        assert MissingAt(items, i);
      } else if !Complete(items[n]) {
        assert MissingAt(items, n);
      } else {
        forall i | 0 <= i < n ensures !MissingAt(items, i) {
          assert items[i] == pre[i];
          assert !MissingAt(pre, i);
        }
        assert !MissingAt(items, n);
      }
    }
  }

  /** One successful pass of the loop: the entries before it succeeded and the last entry was stored. */
  lemma MarketFoldStep(name: string, items: seq<Item>)
    requires items != [] && MarketFold(name, items).Success?
    ensures MarketFold(name, items[..|items| - 1]).Success?
    ensures Complete(items[|items| - 1])
    ensures MarketFold(name, items).value ==
      Store(MarketFold(name, items[..|items| - 1]).value, SlotOf(LabelOf(items[|items| - 1])), ValueOf(items[|items| - 1]))
  {
  }

  /** One pass of the loop body over the entry `x`. */
  lemma MarketSnoc(name: string, items: seq<Item>, x: Item)
    ensures MarketFold(name, items + [x]) ==
      match MarketFold(name, items)
      case Failure(e) => Failure(e)
      case Success(d) => if !Complete(x) then Failure(NoneText) else Success(Store(d, SlotOf(LabelOf(x)), ValueOf(x)))
  {
    assert (items + [x])[..|items|] == items;
  }

  /** The loop never touches the company name. */
  lemma {:induction false} MarketFoldName(name: string, items: seq<Item>)
    requires MarketFold(name, items).Success?
    ensures MarketFold(name, items).value.companyName == name
  {
    if items != [] {
      MarketFoldStep(name, items);
      MarketFoldName(name, items[..|items| - 1]);
    }
  }

  /** A field no label selects keeps its initial `""`. */
  lemma {:induction false} MarketFoldUnset(name: string, items: seq<Item>, slot: Slot)
    requires slot != NoSlot
    requires MarketFold(name, items).Success?
    requires forall i :: !SelectsAt(items, slot, i)
    ensures Field(MarketFold(name, items).value, slot) == ""
  {
    if items != [] {
      var n := |items| - 1;
      var pre := items[..n];
      MarketFoldStep(name, items);
      assert !SelectsAt(items, slot, n);
      forall i ensures !SelectsAt(pre, slot, i) {
        if 0 <= i < n {
          assert pre[i] == items[i];
          assert !SelectsAt(items, slot, i);
        }
      }
      MarketFoldUnset(name, pre, slot);
      var d := MarketFold(name, pre).value;
      var last := SlotOf(LabelOf(items[n]));
      assert last != slot;
      assert Field(Store(d, last, ValueOf(items[n])), slot) == Field(d, slot);
    }
  }

  /** A field some label selects holds the value of the last entry whose label selects it. */
  lemma {:induction false} MarketFoldLast(name: string, items: seq<Item>, slot: Slot, i: int)
    requires slot != NoSlot
    requires MarketFold(name, items).Success?
    requires LastFor(items, slot, i)
    ensures Field(MarketFold(name, items).value, slot) == ValueOf(items[i])
  {
    var n := |items| - 1;
    var pre := items[..n];
    MarketFoldStep(name, items);
    var d := MarketFold(name, pre).value;
    var stored := SlotOf(LabelOf(items[n]));
    assert MarketFold(name, items).value == Store(d, stored, ValueOf(items[n]));
    if i == n {
      assert SelectsAt(items, slot, n);
      assert stored == slot;
    } else {
      assert !SelectsAt(items, slot, n);
      assert stored != slot;
      assert Field(MarketFold(name, items).value, slot) == Field(d, slot);
      assert LastFor(pre, slot, i) by {
        assert pre[i] == items[i];
        forall j | i < j ensures !SelectsAt(pre, slot, j) {
          if j < n {
            assert pre[j] == items[j];
            assert !SelectsAt(items, slot, j);
          }
        }
      }
      MarketFoldLast(name, pre, slot, i);
    }
  }

  /**
   * Each of the three fields ends as the value of the LAST entry whose label selects
   * it, or `""` when no label does; the company name is never touched by the loop.
   */
  lemma MarketFoldLastWrite(name: string, items: seq<Item>, slot: Slot)
    requires slot != NoSlot
    requires MarketFold(name, items).Success?
    ensures MarketFold(name, items).value.companyName == name
    ensures (forall i :: !SelectsAt(items, slot, i)) ==> Field(MarketFold(name, items).value, slot) == ""
    ensures forall i :: LastFor(items, slot, i) ==> Field(MarketFold(name, items).value, slot) == ValueOf(items[i])
  {
    MarketFoldName(name, items);
    if forall i :: !SelectsAt(items, slot, i) {
      MarketFoldUnset(name, items, slot);
    }
    forall i | LastFor(items, slot, i) ensures Field(MarketFold(name, items).value, slot) == ValueOf(items[i]) {
      MarketFoldLast(name, items, slot, i);
    }
  }

  /** `parse_market_data`: the loop overwrites `data` entry by entry. */
  method ParseMarketData(heading: Option<string>, items: seq<Item>) returns (r: Result<MarketData>)
    ensures r == MarketSpec(heading, items)
  {
    if heading.None? {
      return Failure(NoneText);
    }
    var data := MarketData("", "", "", "");
    data := data.(companyName := Trim(heading.value));
    ghost var seen: seq<Item> := [];
    var i := 0;
    while i < |items|
      invariant 0 <= i <= |items|
      invariant seen == items[..i]
      invariant MarketFold(data.companyName, seen) == Success(data)
      invariant data.companyName == Trim(heading.value)
    {
      var item := items[i];
      MarketSnoc(data.companyName, seen, item);
      assert items[..i + 1] == seen + [item];
      seen := seen + [item];
      if item.name.None? || item.number.None? {
        MarketFailsFromHere(data.companyName, items, i);
        return Failure(NoneText);
      }
      var labelText := Trim(item.name.value);
      var value := Trim(item.number.value);
      if Contains(labelText, "Market Cap") {
        data := data.(marketCap := value);
      } else if Contains(labelText, "Current Price") {
        data := data.(currentPrice := value);
      } else if Contains(labelText, "52 Week High / Low") {
        data := data.(highLow := value);
      }
      i := i + 1;
    }
    assert items[..i] == items;
    r := Success(data);
  }

  /** Once an entry raises, the loop's outcome is that exception whatever follows. */
  lemma {:induction false} MarketFailsFromHere(name: string, items: seq<Item>, i: int)
    requires 0 <= i < |items| && !Complete(items[i])
    ensures MarketFold(name, items) == Failure(NoneText)
  {
    assert MissingAt(items, i);
    MarketFoldFails(name, items);
  }

  // ---------------------------------------------------------------- parse_ratios

  /** The guard of `parse_ratios`: both elements found, both texts non-empty, and no "View more" label. */
  predicate Accepted(it: Item)
  {
    Complete(it) && LabelOf(it) != "" && ValueOf(it) != "" && !Contains(LabelOf(it), "View more")
  }

  /** The entries of all selected sections, section by section. */
  function Flatten(sections: seq<seq<Item>>): seq<Item>
  {
    if sections == [] then [] else Flatten(sections[..|sections| - 1]) + sections[|sections| - 1]
  }

  /**
   * The `ratios` dictionary after the nested loop has visited `entries`: a valid
   * insertion-ordered dictionary holding only non-empty, stripped labels without
   * "View more", each mapped to a non-empty value.
   */
  function RatioFold(entries: seq<Item>): (d: Dict<string, string>)
    ensures Valid(d)
    ensures forall k :: k in d.vals ==> k != "" && d.vals[k] != "" && !Contains(k, "View more")
  {
    if entries == [] then Empty()
    else
      var d := RatioFold(entries[..|entries| - 1]);
      var e := entries[|entries| - 1];
      if Accepted(e) then Put(d, LabelOf(e), ValueOf(e)) else d
  }

  /** The entry at `i` passes the guard and carries the label `k`. */
  ghost predicate AcceptedAt(entries: seq<Item>, i: int, k: string)
  {
    0 <= i < |entries| && Accepted(entries[i]) && LabelOf(entries[i]) == k
  }

  /** One pass of the inner loop body over the entry `e`. */
  lemma RatioStep(seen: seq<Item>, e: Item)
    ensures RatioFold(seen + [e]) ==
      if Accepted(e) then Put(RatioFold(seen), LabelOf(e), ValueOf(e)) else RatioFold(seen)
  {
    assert (seen + [e])[..|seen|] == seen;
  }

  /** Every accepted label ends up as a key. */
  lemma {:induction false} RatioKeysComplete(entries: seq<Item>, i: int, k: string)
    requires AcceptedAt(entries, i, k)
    ensures k in RatioFold(entries).vals
  {
    var n := |entries| - 1;
    var pre := entries[..n];
    assert entries == pre + [entries[n]];
    RatioStep(pre, entries[n]);
    if i < n {
      assert pre[i] == entries[i];
      RatioKeysComplete(pre, i, k);
    }
  }

  /** Every key comes from an accepted entry. */
  lemma {:induction false} RatioKeysSound(entries: seq<Item>, k: string)
    requires k in RatioFold(entries).vals
    ensures exists i :: AcceptedAt(entries, i, k)
  {
    var n := |entries| - 1;
    var pre := entries[..n];
    assert entries == pre + [entries[n]];
    RatioStep(pre, entries[n]);
    if !AcceptedAt(entries, n, k) {
      RatioKeysSound(pre, k);
      var i :| AcceptedAt(pre, i, k);
      assert entries[i] == pre[i];
      assert AcceptedAt(entries, i, k);
    }
  }

  /** A label is a key of `ratios` exactly when some accepted entry carries it. */
  lemma RatioKeys(entries: seq<Item>, k: string)
    ensures k in RatioFold(entries).vals <==> exists i :: AcceptedAt(entries, i, k)
  {
    if k in RatioFold(entries).vals {
      RatioKeysSound(entries, k);
    }
    if exists i :: AcceptedAt(entries, i, k) {
      var i :| AcceptedAt(entries, i, k);
      RatioKeysComplete(entries, i, k);
    }
  }

  /** A repeated label holds the value of its last accepted entry. */
  lemma {:induction false} RatioValueIsLast(entries: seq<Item>, i: int, k: string)
    requires AcceptedAt(entries, i, k)
    requires forall j :: i < j ==> !AcceptedAt(entries, j, k)
    ensures k in RatioFold(entries).vals && RatioFold(entries).vals[k] == ValueOf(entries[i])
  {
    var n := |entries| - 1;
    var pre := entries[..n];
    assert entries == pre + [entries[n]];
    RatioStep(pre, entries[n]);
    if i < n {
      assert pre[i] == entries[i];
      assert !AcceptedAt(entries, n, k);
      forall j | i < j ensures !AcceptedAt(pre, j, k) {
        if j < n {
          assert pre[j] == entries[j];
          assert !AcceptedAt(entries, j, k);
        }
      }
      RatioValueIsLast(pre, i, k);
    }
  }

  /**
   * Visiting more entries never moves or removes a key: the keys after `a` are a
   * prefix of the keys after `a + b`, so a label keeps its first insertion position.
   */
  lemma {:induction false} RatioKeysKeepPosition(a: seq<Item>, b: seq<Item>)
    ensures RatioFold(a).keys <= RatioFold(a + b).keys
  {
    if b != [] {
      var b' := b[..|b| - 1];
      assert (a + b)[..|a + b| - 1] == a + b';
      RatioKeysKeepPosition(a, b');
    } else {
      assert a + b == a;
    }
  }

  /** `parse_ratios`: the outer loop runs over the selected sections, the inner over their `li` entries. */
  method ParseRatios(sections: seq<seq<Item>>) returns (ratios: Dict<string, string>)
    ensures ratios == RatioFold(Flatten(sections))
  {
    ratios := Dict([], map[]);
    var s := 0;
    while s < |sections|
      invariant 0 <= s <= |sections|
      invariant ratios == RatioFold(Flatten(sections[..s]))
    {
      var section := sections[s];
      ratios := ParseSection(ratios, Flatten(sections[..s]), section);
      FlattenSnoc(sections[..s], section);
      assert sections[..s + 1] == sections[..s] + [section];
      s := s + 1;
    }
    assert sections[..s] == sections;
  }

  /** The inner loop of `parse_ratios`, over the `li` entries of one section. */
  method ParseSection(ratios0: Dict<string, string>, ghost seen0: seq<Item>, section: seq<Item>)
    returns (ratios: Dict<string, string>)
    requires ratios0 == RatioFold(seen0)
    ensures ratios == RatioFold(seen0 + section)
  {
    ratios := ratios0;
    ghost var seen := seen0;
    var j := 0;
    while j < |section|
      invariant 0 <= j <= |section|
      invariant seen == seen0 + section[..j]
      invariant ratios == RatioFold(seen)
    {
      var ratio := section[j];
      RatioStep(seen, ratio);
      if ratio.name.Some? && ratio.number.Some? {
        var labelText := Trim(ratio.name.value);
        var valueText := Trim(ratio.number.value);
        if labelText != "" && valueText != "" && !Contains(labelText, "View more") {
          ratios := Put(ratios, labelText, valueText);
        }
      }
      assert section[..j + 1] == section[..j] + [ratio];
      seen := seen + [ratio];
      j := j + 1;
    }
    assert section[..j] == section;
  }

  /** The entries of one more section follow those of the sections before it. */
  lemma FlattenSnoc(sections: seq<seq<Item>>, section: seq<Item>)
    ensures Flatten(sections + [section]) == Flatten(sections) + section
  {
    assert (sections + [section])[..|sections|] == sections;
  }

  // ---------------------------------------------------------------- parse_tables

  /** `[c.text.strip() for c in cells]` */
  function TrimAll(cells: seq<string>): seq<string>
  {
    seq(|cells|, i requires 0 <= i < |cells| => Trim(cells[i]))
  }

  /**
   * What `parse_tables` returns for the selected tables: one table per selected table,
   * in order; the title is the stripped preceding heading or `""`; every body row is
   * kept, stripped cell by cell, in order and without removing repeats.
   */
  ghost predicate TablesFrom(raw: seq<RawTable>, tables: seq<Table>)
  {
    |tables| == |raw|
    && forall i :: 0 <= i < |raw| ==>
      && tables[i].title == (if raw[i].heading.Some? then Trim(raw[i].heading.value) else "")
      && tables[i].headers == TrimAll(raw[i].headerCells)
      && |tables[i].rows| == |raw[i].bodyRows|
      && forall j :: 0 <= j < |raw[i].bodyRows| ==> tables[i].rows[j] == TrimAll(raw[i].bodyRows[j])
  }

  /** `parse_tables`: the outer loop builds one table per selected table, the inner loop appends its rows. */
  method ParseTables(raw: seq<RawTable>) returns (tables: seq<Table>)
    ensures TablesFrom(raw, tables)
  {
    tables := [];
    var t := 0;
    while t < |raw|
      invariant 0 <= t <= |raw|
      invariant TablesFrom(raw[..t], tables)
    {
      var table := raw[t];
      var tableData := Table("", [], []);
      if table.heading.Some? {
        tableData := tableData.(title := Trim(table.heading.value));
      }
      tableData := tableData.(headers := TrimAll(table.headerCells));
      var k := 0;
      while k < |table.bodyRows|
        invariant 0 <= k <= |table.bodyRows|
        invariant tableData.title == (if table.heading.Some? then Trim(table.heading.value) else "")
        invariant tableData.headers == TrimAll(table.headerCells)
        invariant |tableData.rows| == k
        invariant forall j :: 0 <= j < k ==> tableData.rows[j] == TrimAll(table.bodyRows[j])
      {
        var rowData := TrimAll(table.bodyRows[k]);
        tableData := tableData.(rows := tableData.rows + [rowData]);
        k := k + 1;
      }
      tables := tables + [tableData];
      t := t + 1;
    }
    assert raw[..t] == raw;
  }

  // ---------------------------------------------------------------- parse_links

  /** The guard of `parse_links`. */
  predicate Keeps(a: Anchor)
  {
    a.href != "" && Contains(a.href, "/company/") && '#' !in a.href && Trim(a.text) != ""
  }

  /** The `links` list after the loop has visited `anchors`. */
  function LinksOf(base: string, anchors: seq<Anchor>): seq<Link>
  {
    if anchors == [] then []
    else
      var a := anchors[|anchors| - 1];
      LinksOf(base, anchors[..|anchors| - 1]) + (if Keeps(a) then [Link(Trim(a.text), base + a.href)] else [])
  }

  /**
   * `parse_links` is a filter-and-map: each anchor contributes its own link when the
   * guard holds and nothing otherwise, and contributions keep the anchors' order.
   */
  lemma {:induction false} LinksOfFilterMap(base: string, a: seq<Anchor>, b: seq<Anchor>)
    ensures LinksOf(base, a + b) == LinksOf(base, a) + LinksOf(base, b)
    ensures |a| == 1 ==> LinksOf(base, a) == if Keeps(a[0]) then [Link(Trim(a[0].text), base + a[0].href)] else []
  {
    if b == [] {
      assert a + b == a;
    } else {
      var b', x := b[..|b| - 1], b[|b| - 1];
      var own := if Keeps(x) then [Link(Trim(x.text), base + x.href)] else [];
      calc {
        LinksOf(base, a + b);
        { assert a + b == (a + b') + [x]; LinksSnoc(base, a + b', x); }
        LinksOf(base, a + b') + own;
        { LinksOfFilterMap(base, a, b'); }
        (LinksOf(base, a) + LinksOf(base, b')) + own;
        LinksOf(base, a) + (LinksOf(base, b') + own);
        { assert b == b' + [x]; LinksSnoc(base, b', x); }
        LinksOf(base, a) + LinksOf(base, b);
      }
    }
    if |a| == 1 {
      assert a == [] + [a[0]];
      LinksSnoc(base, [], a[0]);
    }
  }


  /** One pass of the loop body over the anchor `x`. */
  lemma LinksSnoc(base: string, anchors: seq<Anchor>, x: Anchor)
    ensures LinksOf(base, anchors + [x]) ==
      LinksOf(base, anchors) + (if Keeps(x) then [Link(Trim(x.text), base + x.href)] else [])
  {
    assert (anchors + [x])[..|anchors|] == anchors;
  }

  /** Every link has a non-empty stripped text and a URL that is `base` followed by an in-company `href` without `#`. */
  lemma {:induction false} LinksOfSound(base: string, anchors: seq<Anchor>)
    ensures forall l :: l in LinksOf(base, anchors) ==>
      && l.text != "" && l.text == Trim(l.text)
      && |base| < |l.url| && l.url[..|base|] == base
      && Contains(l.url[|base|..], "/company/") && '#' !in l.url[|base|..]
  {
    if anchors != [] {
      LinksOfSound(base, anchors[..|anchors| - 1]);
      var a := anchors[|anchors| - 1];
      if Keeps(a) {
        TrimIdempotent(a.text);
        assert (base + a.href)[|base|..] == a.href;
      }
    }
  }

  /** `parse_links`: the loop appends one link per anchor that passes the guard. */
  method ParseLinks(anchors: seq<Anchor>, base: string) returns (links: seq<Link>)
    ensures links == LinksOf(base, anchors)
  {
    links := [];
    ghost var seen: seq<Anchor> := [];
    var i := 0;
    while i < |anchors|
      invariant 0 <= i <= |anchors|
      invariant seen == anchors[..i]
      invariant links == LinksOf(base, seen)
    {
      LinksSnoc(base, seen, anchors[i]);
      assert anchors[..i + 1] == seen + [anchors[i]];
      seen := seen + [anchors[i]];
      var href := anchors[i].href;
      var text := Trim(anchors[i].text);
      if href != "" && Contains(href, "/company/") && '#' !in href && text != "" {
        links := links + [Link(text, base + href)];
      }
      i := i + 1;
    }
    assert anchors[..i] == anchors;
  }
}
