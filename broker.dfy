/**
 * `get_broker_data`: broker holdings come from a local HTTP API or, when that
 * request fails, from a database table. The request, the connection and the SQL
 * engine are not modelled: the API's answer (or its failure) and the table's rows
 * are inputs, and `datetime.now()` is a clock whose k-th reading is `clock(k)`.
 */
module Broker {
  import opened Wrappers
  import opened Text
  import opened PyDict

  /** One result entry, and one database row: broker name, holdings and date-time text. */
  datatype Record<H> = Record(brokerName: string, holdings: H, dateTime: string)

  datatype Source = Api | Db

  /** `{"source": ..., "data": [...]}` */
  datatype Response<H> = Response(source: Source, data: seq<Record<H>>)

  /** `broker_name` is truthy: given, and not the empty string. */
  predicate Filters(brokerName: Option<string>)
  {
    brokerName.Some? && brokerName.value != ""
  }

  /** A broker survives the name filter. */
  predicate Wanted(brokerName: Option<string>, broker: string)
  {
    !Filters(brokerName) || broker == brokerName.value
  }

  // ---------------------------------------------------------------- API path

  /** The `result` list after the loop has visited the first `n` keys of the API's answer. */
  function ApiFold<H>(api: Dict<string, H>, n: nat, brokerName: Option<string>, clock: nat -> string): seq<Record<H>>
    requires Valid(api) && n <= |api.keys|
  {
    if n == 0 then []
    else
      var acc := ApiFold(api, n - 1, brokerName, clock);
      var broker := api.keys[n - 1];
      if Wanted(brokerName, broker) then acc + [Record(broker, api.vals[broker], clock(|acc|))] else acc
  }

  /**
   * Without a name, every broker of the answer is listed in the answer's order,
   * the k-th stamped with the k-th clock reading. With a name, only that broker is
   * kept: one entry if the answer has it, none otherwise.
   */
  lemma ApiSelection<H>(api: Dict<string, H>, n: nat, brokerName: Option<string>, clock: nat -> string)
    requires Valid(api) && n <= |api.keys|
    ensures var r := ApiFold(api, n, brokerName, clock);
      && (!Filters(brokerName) ==>
            && |r| == n
            && forall k :: 0 <= k < n ==> r[k] == Record(api.keys[k], api.vals[api.keys[k]], clock(k)))
      && (Filters(brokerName) ==>
            && |r| == (if brokerName.value in api.keys[..n] then 1 else 0)
            && forall k :: 0 <= k < |r| ==> r[k] == Record(brokerName.value, api.vals[brokerName.value], clock(k)))
  {
    if Filters(brokerName) {
      ApiSelectOne(api, n, brokerName.value, clock);
    } else {
      ApiSelectAll(api, n, brokerName, clock);
    }
  }

  /** Without a name, the fold lists the first `n` brokers, the k-th with the k-th reading. */
  lemma {:induction false} ApiSelectAll<H>(api: Dict<string, H>, n: nat, brokerName: Option<string>, clock: nat -> string)
    requires Valid(api) && n <= |api.keys| && !Filters(brokerName)
    ensures var r := ApiFold(api, n, brokerName, clock);
      && |r| == n
      && forall k :: 0 <= k < n ==> r[k] == Record(api.keys[k], api.vals[api.keys[k]], clock(k))
  {
    if n > 0 {
      ApiSelectAll(api, n - 1, brokerName, clock);
      var acc := ApiFold(api, n - 1, brokerName, clock);
      var broker := api.keys[n - 1];
      var r := ApiFold(api, n, brokerName, clock);
      assert r == acc + [Record(broker, api.vals[broker], clock(n - 1))];
      forall k | 0 <= k < n
        ensures r[k] == Record(api.keys[k], api.vals[api.keys[k]], clock(k))
      {
        if k < n - 1 {
          assert r[k] == acc[k];
        }
      }
    }
  }

  /** With a name, the fold holds that broker once if it is among the first `n`, else nothing. */
  lemma {:induction false} ApiSelectOne<H>(api: Dict<string, H>, n: nat, name: string, clock: nat -> string)
    requires Valid(api) && n <= |api.keys| && name != ""
    ensures var r := ApiFold(api, n, Some(name), clock);
      && |r| == (if name in api.keys[..n] then 1 else 0)
      && forall k :: 0 <= k < |r| ==> r[k] == Record(name, api.vals[name], clock(k))
  {
    if n > 0 {
      ApiSelectOne(api, n - 1, name, clock);
      var acc := ApiFold(api, n - 1, Some(name), clock);
      var broker := api.keys[n - 1];
      assert api.keys[..n] == api.keys[..n - 1] + [broker];
      if broker == name {
        assert broker !in api.keys[..n - 1];
        assert |acc| == 0;
        assert ApiFold(api, n, Some(name), clock) == [Record(name, api.vals[name], clock(0))];
      } else {
        assert ApiFold(api, n, Some(name), clock) == acc;
      }
    }
  }

  /** The API branch: the loop with its `continue`; `fetch_only_latest` changes nothing here. */
  method FromApi<H>(api: Dict<string, H>, brokerName: Option<string>, fetchOnlyLatest: bool, clock: nat -> string)
    returns (resp: Response<H>)
    requires Valid(api)
    ensures resp == Response(Api, ApiFold(api, |api.keys|, brokerName, clock))
  {
    var result: seq<Record<H>> := [];
    var i := 0;
    while i < |api.keys|
      invariant 0 <= i <= |api.keys|
      invariant result == ApiFold(api, i, brokerName, clock)
    {
      var broker := api.keys[i];
      var holdings := api.vals[broker];
      i := i + 1;
      if brokerName.Some? && brokerName.value != "" && broker != brokerName.value {
        continue;
      }
      result := result + [Record(broker, holdings, clock(|result|))];
    }
    resp := Response(Api, if fetchOnlyLatest then result else result);
  }

  // ---------------------------------------------------------------- database path

  /** The rows `SELECT ... [WHERE BrokerName = ?]` returns, taken in table order. */
  function Query<H>(table: seq<Record<H>>, brokerName: Option<string>): (rows: seq<Record<H>>)
    ensures |rows| <= |table|
    ensures forall i :: 0 <= i < |rows| ==> rows[i] in table && Wanted(brokerName, rows[i].brokerName)
  {
    if table == [] then []
    else
      var last := table[|table| - 1];
      Query(table[..|table| - 1], brokerName) + (if Wanted(brokerName, last.brokerName) then [last] else [])
  }

  /** One more table row: the query's rows so far, then that row if it is wanted. */
  lemma QuerySnoc<H>(rows: seq<Record<H>>, r: Record<H>, brokerName: Option<string>)
    ensures Query(rows + [r], brokerName) == Query(rows, brokerName) + (if Wanted(brokerName, r.brokerName) then [r] else [])
  {
    assert (rows + [r])[..|rows|] == rows;
  }

  /**
   * The query keeps table order: the rows of two consecutive stretches of the
   * table come back as the first stretch's rows followed by the second's.
   */
  lemma {:induction false} QueryInOrder<H>(a: seq<Record<H>>, b: seq<Record<H>>, brokerName: Option<string>)
    ensures Query(a + b, brokerName) == Query(a, brokerName) + Query(b, brokerName)
  {
    if b == [] {
      assert a + b == a;
    } else {
      var pre, last := b[..|b| - 1], b[|b| - 1];
      var tail := if Wanted(brokerName, last.brokerName) then [last] else [];
      var qa, qp := Query(a, brokerName), Query(pre, brokerName);
      assert Query(a + b, brokerName) == (qa + qp) + tail by {
        assert a + b == (a + pre) + [last] by {
          assert b == pre + [last];
        }
        QuerySnoc(a + pre, last, brokerName);
        QueryInOrder(a, pre, brokerName);
      }
      assert Query(b, brokerName) == qp + tail by {
        assert b == pre + [last];
        QuerySnoc(pre, last, brokerName);
      }
      Associative(qa, qp, tail);
    }
  }

  /** Every wanted row of the table is returned: all rows when no name is given. */
  lemma {:induction false} QueryComplete<H>(table: seq<Record<H>>, brokerName: Option<string>, i: int)
    requires 0 <= i < |table| && Wanted(brokerName, table[i].brokerName)
    ensures table[i] in Query(table, brokerName)
  {
    var pre, last := table[..|table| - 1], table[|table| - 1];
    assert table == pre + [last];
    QuerySnoc(pre, last, brokerName);
    if i < |table| - 1 {
      assert pre[i] == table[i];
      QueryComplete(pre, brokerName, i);
    }
  }

  /** Concatenation regroups freely. */
  lemma Associative<T>(x: seq<T>, y: seq<T>, z: seq<T>)
    ensures (x + y) + z == x + (y + z)
  {
  }

  /** A single row comes back exactly when it is wanted. */
  lemma QueryOneRow<H>(r: Record<H>, brokerName: Option<string>)
    ensures Query([r], brokerName) == if Wanted(brokerName, r.brokerName) then [r] else []
  {
    QuerySnoc([], r, brokerName);
    assert [] + [r] == [r];
  }

  /** What `latest_data` maps a broker to. */
  datatype Entry<H> = Entry(holdings: H, dateTime: string)

  /** The `latest_data` dictionary after the loop has visited `rows`. */
  function LatestFold<H>(rows: seq<Record<H>>): (d: Dict<string, Entry<H>>)
    ensures Valid(d)
  {
    if rows == [] then Empty()
    else
      var d := LatestFold(rows[..|rows| - 1]);
      var r := rows[|rows| - 1];
      if r.brokerName !in d.vals || StrLess(d.vals[r.brokerName].dateTime, r.dateTime)
      then Put(d, r.brokerName, Entry(r.holdings, r.dateTime))
      else d
  }

  /** The row at `i` belongs to broker `b`. */
  ghost predicate RowOf<H>(rows: seq<Record<H>>, i: int, b: string)
  {
    0 <= i < |rows| && rows[i].brokerName == b
  }

  /**
   * The row at `i` is the one kept for broker `b`: it is strictly later than every
   * earlier row of `b`, and no later row of `b` is strictly later than it.
   */
  ghost predicate Winner<H>(rows: seq<Record<H>>, i: int, b: string)
  {
    RowOf(rows, i, b)
    && (forall j :: 0 <= j < i && RowOf(rows, j, b) ==> StrLess(rows[j].dateTime, rows[i].dateTime))
    && (forall j :: i < j && RowOf(rows, j, b) ==> !StrLess(rows[i].dateTime, rows[j].dateTime))
  }

  /** One pass of the loop body over the row `r`. */
  lemma LatestStep<H>(rows: seq<Record<H>>, r: Record<H>)
    ensures LatestFold(rows + [r]) ==
      var d := LatestFold(rows);
      if r.brokerName !in d.vals || StrLess(d.vals[r.brokerName].dateTime, r.dateTime)
      then Put(d, r.brokerName, Entry(r.holdings, r.dateTime))
      else d
  {
    assert (rows + [r])[..|rows|] == rows;
  }

  /** Every broker with a row ends up as a key. */
  lemma {:induction false} LatestKeysComplete<H>(rows: seq<Record<H>>, i: int, b: string)
    requires RowOf(rows, i, b)
    ensures b in LatestFold(rows).vals
  {
    var n := |rows| - 1;
    var pre := rows[..n];
    assert rows == pre + [rows[n]];
    LatestStep(pre, rows[n]);
    if i < n {
      assert RowOf(pre, i, b);
      LatestKeysComplete(pre, i, b);
    }
  }

  /** Every key is the broker of some row. */
  lemma {:induction false} LatestKeysSound<H>(rows: seq<Record<H>>, b: string)
    requires b in LatestFold(rows).vals
    ensures exists i :: RowOf(rows, i, b)
  {
    var n := |rows| - 1;
    var pre := rows[..n];
    assert rows == pre + [rows[n]];
    LatestStep(pre, rows[n]);
    if !RowOf(rows, n, b) {
      LatestKeysSound(pre, b);
      var i :| RowOf(pre, i, b);
      assert RowOf(rows, i, b);
    }
  }

  /** A broker is a key of `latest_data` exactly when some row belongs to it. */
  lemma LatestKeys<H>(rows: seq<Record<H>>, b: string)
    ensures b in LatestFold(rows).vals <==> exists i :: RowOf(rows, i, b)
  {
    if b in LatestFold(rows).vals {
      LatestKeysSound(rows, b);
    }
    if exists i :: RowOf(rows, i, b) {
      var i :| RowOf(rows, i, b);
      LatestKeysComplete(rows, i, b);
    }
  }

  /** A row strictly later than the current winner takes its place. */
  lemma WinnerReplaced<H>(rows: seq<Record<H>>, i: int, b: string)
    requires |rows| > 0 && Winner(rows[..|rows| - 1], i, b)
    requires rows[|rows| - 1].brokerName == b && StrLess(rows[i].dateTime, rows[|rows| - 1].dateTime)
    ensures Winner(rows, |rows| - 1, b)
  {
    var n := |rows| - 1;
    var pre := rows[..n];
    var x := rows[n];
    assert rows[i] == pre[i];
    forall j | 0 <= j < n && RowOf(rows, j, b) ensures StrLess(rows[j].dateTime, x.dateTime) {
      assert RowOf(pre, j, b) && rows[j] == pre[j];
      if j < i {
        StrLessTransitive(rows[j].dateTime, rows[i].dateTime, x.dateTime);
      } else if j > i && rows[j].dateTime != rows[i].dateTime {
        StrLessTotal(rows[j].dateTime, rows[i].dateTime);
        StrLessTransitive(rows[j].dateTime, rows[i].dateTime, x.dateTime);
      }
    }
  }

  /** A row that is not strictly later leaves the winner in place. */
  lemma WinnerKept<H>(rows: seq<Record<H>>, i: int, b: string)
    requires |rows| > 0 && Winner(rows[..|rows| - 1], i, b)
    requires !(rows[|rows| - 1].brokerName == b && StrLess(rows[i].dateTime, rows[|rows| - 1].dateTime))
    ensures Winner(rows, i, b)
  {
    var n := |rows| - 1;
    var pre := rows[..n];
    assert rows[i] == pre[i];
    forall j | i < j && RowOf(rows, j, b) ensures !StrLess(rows[i].dateTime, rows[j].dateTime) {
      if j < n {
        assert RowOf(pre, j, b) && rows[j] == pre[j];
      }
    }
    forall j | 0 <= j < i && RowOf(rows, j, b) ensures StrLess(rows[j].dateTime, rows[i].dateTime) {
      assert RowOf(pre, j, b) && rows[j] == pre[j];
    }
  }

  /** The first row of a broker is its winner so far. */
  lemma WinnerFirst<H>(rows: seq<Record<H>>, b: string)
    requires |rows| > 0 && rows[|rows| - 1].brokerName == b
    requires forall j :: 0 <= j < |rows| - 1 ==> rows[j].brokerName != b
    ensures Winner(rows, |rows| - 1, b)
  {
  }

  /** At most one row of a broker can be its winner. */
  lemma WinnerUnique<H>(rows: seq<Record<H>>, b: string, i: int, j: int)
    requires Winner(rows, i, b) && i != j
    ensures !Winner(rows, j, b)
  {
  }

  /**
   * Each broker is kept with the holdings and date-time of its latest row: the row
   * with the greatest date-time, the first of them on a tie.
   */
  lemma {:induction false} LatestIsWinner<H>(rows: seq<Record<H>>, b: string)
    requires b in LatestFold(rows).vals
    ensures exists i :: Winner(rows, i, b) && LatestFold(rows).vals[b] == Entry(rows[i].holdings, rows[i].dateTime)
  {
    var n := |rows| - 1;
    var pre := rows[..n];
    var x := rows[n];
    if b in LatestFold(pre).vals {
      LatestIsWinner(pre, b);
      var i :| Winner(pre, i, b) && LatestFold(pre).vals[b] == Entry(pre[i].holdings, pre[i].dateTime);
      assert rows[i] == pre[i];
      if x.brokerName == b && StrLess(pre[i].dateTime, x.dateTime) {
        WinnerReplaced(rows, i, b);
        assert LatestFold(rows).vals[b] == Entry(x.holdings, x.dateTime);
      } else {
        WinnerKept(rows, i, b);
        assert LatestFold(rows).vals[b] == LatestFold(pre).vals[b];
      }
    } else {
      LatestKeys(pre, b);
      forall j | 0 <= j < n ensures rows[j].brokerName != b {
        assert !RowOf(pre, j, b);
      }
      WinnerFirst(rows, b);
      assert LatestFold(rows).vals[b] == Entry(x.holdings, x.dateTime);
    }
  }

  /** Later rows never move a broker: the keys after `a` are a prefix of the keys after `a + b`. */
  lemma {:induction false} LatestKeysKeepPosition<H>(a: seq<Record<H>>, b: seq<Record<H>>)
    ensures LatestFold(a).keys <= LatestFold(a + b).keys
  {
    if b != [] {
      var b' := b[..|b| - 1];
      assert (a + b)[..|a + b| - 1] == a + b';
      LatestKeysKeepPosition(a, b');
    } else {
      assert a + b == a;
    }
  }

  /** `[{"BrokerName": broker, **data} for broker, data in latest_data.items()]`: one entry per broker. */
  function LatestRecords<H>(d: Dict<string, Entry<H>>): (r: seq<Record<H>>)
    requires Valid(d)
    ensures |r| == |d.keys|
    ensures forall k :: 0 <= k < |r| ==>
      r[k].brokerName == d.keys[k] && Entry(r[k].holdings, r[k].dateTime) == d.vals[d.keys[k]]
    ensures forall i, j :: 0 <= i < j < |r| ==> r[i].brokerName != r[j].brokerName
  {
    seq(|d.keys|, k requires 0 <= k < |d.keys| =>
      Record(d.keys[k], d.vals[d.keys[k]].holdings, d.vals[d.keys[k]].dateTime))
  }

  /** The `fetch_only_latest` loop over the fetched rows. */
  method LatestPerBroker<H>(rows: seq<Record<H>>) returns (latestData: Dict<string, Entry<H>>)
    ensures latestData == LatestFold(rows)
  {
    latestData := Empty();
    ghost var seen: seq<Record<H>> := [];
    var i := 0;
    while i < |rows|
      invariant 0 <= i <= |rows|
      invariant seen == rows[..i]
      invariant latestData == LatestFold(seen)
    {
      var row := rows[i];
      LatestStep(seen, row);
      if row.brokerName !in latestData.vals || StrLess(latestData.vals[row.brokerName].dateTime, row.dateTime) {
        latestData := Put(latestData, row.brokerName, Entry(row.holdings, row.dateTime));
      }
      assert latestData == LatestFold(seen + [row]);
      assert rows[..i + 1] == seen + [row];
      seen := seen + [row];
      i := i + 1;
    }
    assert rows[..i] == rows;
  }

  /** The database branch. */
  method FromDb<H>(table: seq<Record<H>>, brokerName: Option<string>, fetchOnlyLatest: bool) returns (resp: Response<H>)
    ensures resp.source == Db
    ensures fetchOnlyLatest ==> resp.data == LatestRecords(LatestFold(Query(table, brokerName)))
    ensures !fetchOnlyLatest ==> resp.data == Query(table, brokerName)
  {
    var rows := Query(table, brokerName);
    if fetchOnlyLatest {
      var latestData := LatestPerBroker(rows);
      resp := Response(Db, LatestRecords(latestData));
    } else {
      resp := Response(Db, rows);
    }
  }

  /** `get_broker_data`: the API answer when the request succeeded (`api` present), the database otherwise. */
  method GetBrokerData<H>(api: Option<Dict<string, H>>, table: seq<Record<H>>, brokerName: Option<string>,
                          fetchOnlyLatest: bool, clock: nat -> string) returns (resp: Response<H>)
    requires api.Some? ==> Valid(api.value)
    ensures api.Some? ==> resp == Response(Api, ApiFold(api.value, |api.value.keys|, brokerName, clock))
    ensures api.None? && fetchOnlyLatest ==> resp == Response(Db, LatestRecords(LatestFold(Query(table, brokerName))))
    ensures api.None? && !fetchOnlyLatest ==> resp == Response(Db, Query(table, brokerName))
  {
    if api.Some? {
      resp := FromApi(api.value, brokerName, fetchOnlyLatest, clock);
    } else {
      resp := FromDb(table, brokerName, fetchOnlyLatest);
    }
  }
}
