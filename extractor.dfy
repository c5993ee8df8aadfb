/** The category extractor (src/pipeline/json_extractor.py): the declared
    column lists, the table built from one endpoint's records, the
    column-wise outer join of a category's tables, and `JSONExtractor`,
    whose `extract` loads the saved JSON, builds the join into its field
    `data` and writes it out. Reading and writing files are parameters:
    `load` maps a file name to what `load_json` gives back, `save` maps a
    file name and a table to the error `to_csv` raises, if any. */
module Extractor {
  import opened Responses
  import opened Frames
  import opened Connector

  // ---------------------------------------------------------------------------
  // ENDPOINT_COLUMNS
  // ---------------------------------------------------------------------------

  const ExchangeFlowsColumns: seq<string> := [
    "reserve", "reserve_usd", "netflow_total", "inflow_total", "inflow_top10", "inflow_mean", "inflow_mean_ma7",
    "outflow_total", "outflow_top10", "outflow_mean", "outflow_mean_ma7", "transactions_count_inflow",
    "transactions_count_outflow", "addresses_count_inflow", "addresses_count_outflow"
  ]

  const MinerFlowsColumns: seq<string> := [
    "reserve", "reserve_usd", "netflow_total", "inflow_total", "inflow_top10", "inflow_mean", "inflow_mean_ma7",
    "outflow_total", "outflow_top10", "outflow_mean", "outflow_mean_ma7", "transactions_count_inflow",
    "transactions_count_outflow", "addresses_count_inflow", "addresses_count_outflow"
  ]

  const MarketDataColumns: seq<string> := [
    "high", "low", "open", "close", "volume", "open_interest", "taker_buy_ratio", "taker_sell_ratio",
    "taker_buy_sell_ratio", "taker_buy_volume", "taker_sell_volume", "long_liquidations",
    "long_liquidations_usd", "short_liquidations", "short_liquidations_usd", "coinbase_premium_gap",
    "coinbase_premium_gap_usdt_adjusted", "coinbase_premium_index", "coinbase_premium_index_usdt_adjusted"
  ]

  const NetworkDataColumns: seq<string> := [
    "transactions_count_total", "transactions_count_mean", "addresses_count_active", "addresses_count_sender",
    "addresses_count_receiver", "fees_transaction_mean", "fees_transaction_mean_usd", "fees_transaction_median",
    "fees_transaction_median_usd", "blockreward", "blockreward_usd", "difficulty"
  ]

  const FlowIndicatorColumns: seq<string> := [
    "mpi", "exchange_whale_ratio", "exchange_supply_ratio", "miner_supply_ratio"
  ]

  const MarketIndicatorColumns: seq<string> := [
    "estimated_leverage_ratio", "stablecoin_supply_ratio", "mvrv", "sopr"
  ]

  const NetworkIndicatorColumns: seq<string> := [
    "nvt", "nvt_golden_cross", "nvm", "puell_multiple", "nupl", "nup", "nul", "nrpl"
  ]

  /** `JSONExtractor.ENDPOINT_COLUMNS`: the columns each category declares.
      `extract` consults only its keys, to accept a category. */
  const EndpointColumns: map<string, seq<string>> := map[
    "exchange-flows" := ExchangeFlowsColumns,
    "miner-flows" := MinerFlowsColumns,
    "market-data" := MarketDataColumns,
    "network-data" := NetworkDataColumns,
    "flow-indicator" := FlowIndicatorColumns,
    "market-indicator" := MarketIndicatorColumns,
    "network-indicator" := NetworkIndicatorColumns
  ]

  // ---------------------------------------------------------------------------
  // One endpoint's table
  // ---------------------------------------------------------------------------

  /** The label of the column that becomes the index, as the records name
      it: `drop(columns="start_time")` raises when there is no `start_time`;
      a day-window endpoint renames `date` to `datetime`, which clashes with
      a `datetime` column already there; `df["datetime"]` raises when no
      column carries that label. */
  function TimeColumn(category: string, resp: EndpointData): (r: Result<string>)
    ensures r.Ok? ==> r.value in FrameColumns(resp.data)
    ensures r.Ok? ==> r.value == "date" || r.value == "datetime"
    ensures "start_time" !in FrameColumns(resp.data) ==> r == Err(KeyError("start_time"))
    ensures "start_time" in FrameColumns(resp.data) && WindowOf(category, resp.endpoint).Err? ==>
      r == Err(WindowOf(category, resp.endpoint).exception)
    ensures ("start_time" in FrameColumns(resp.data) && WindowOf(category, resp.endpoint) == Ok("day")
             && "date" in FrameColumns(resp.data) && "datetime" in FrameColumns(resp.data)) ==>
      r == Err(TimeColumnNotUnique)
    ensures ("start_time" in FrameColumns(resp.data) && WindowOf(category, resp.endpoint).Ok?
             && "datetime" !in FrameColumns(resp.data)
             && (WindowOf(category, resp.endpoint).value != "day" || "date" !in FrameColumns(resp.data))) ==>
      r == Err(KeyError("datetime"))
  {
    var cols := FrameColumns(resp.data);
    if "start_time" !in cols then Err(KeyError("start_time"))
    else
      match WindowOf(category, resp.endpoint)
      case Err(e) => Err(e)
      case Ok(w) =>
        if w == "day" && "date" in cols then
          if "datetime" in cols then Err(TimeColumnNotUnique) else Ok("date")
        else if "datetime" in cols then Ok("datetime")
        else Err(KeyError("datetime"))
  }

  /** The time value of a record: its member `key`, or a missing value
      where the record has none. */
  function TimeValue(r: Record, key: string): Value {
    match Lookup(r, key)
    case None => Null
    case Some(v) => v
  }

  /** `pd.to_datetime` over the time column, `parse` standing for its
      reading of one value; it raises at the first value it cannot read. */
  function ParseStamps(rs: seq<Record>, key: string, parse: Value -> Option<int>): (r: Option<seq<int>>)
    ensures r.Some? <==> forall i :: 0 <= i < |rs| ==> parse(TimeValue(rs[i], key)).Some?
    ensures r.Some? ==> |r.value| == |rs|
    ensures r.Some? ==> forall i :: 0 <= i < |rs| ==> r.value[i] == parse(TimeValue(rs[i], key)).value
  {
    if rs == [] then Some([])
    else
      var front := ParseStamps(rs[..|rs| - 1], key, parse);
      assert forall i :: 0 <= i < |rs| - 1 ==> rs[..|rs| - 1][i] == rs[i];
      match (front, parse(TimeValue(rs[|rs| - 1], key)))
      case (Some(s), Some(x)) => Some(s + [x])
      case _ => None
  }

  /** The cells of column `name`: the value of that member of each record,
      at the record's timestamp; a record without the member leaves a
      missing value. */
  function CellsOf(rs: seq<Record>, stamps: seq<int>, name: string): (m: map<int, Value>)
    requires |stamps| == |rs|
    ensures forall x :: x in m ==> x in stamps
    ensures Distinct(stamps) ==> forall i :: 0 <= i < |rs| ==>
      && (stamps[i] in m <==> HasKey(rs[i], name))
      && (stamps[i] in m ==> Some(m[stamps[i]]) == Lookup(rs[i], name))
  {
    if rs == [] then map[]
    else
      var n := |rs| - 1;
      var m := CellsOf(rs[..n], stamps[..n], name);
      assert forall i :: 0 <= i < n ==> rs[..n][i] == rs[i] && stamps[..n][i] == stamps[i];
      assert forall x :: x in stamps[..n] ==> x in stamps;
      assert Distinct(stamps) ==> Distinct(stamps[..n]) && stamps[n] !in stamps[..n];
      match Lookup(rs[n], name)
      case None => m
      case Some(v) => m[stamps[n] := v]
  }

  /** The value columns of the table: the record keys without `start_time`
      and without the time column, in order of first appearance. */
  function ValueColumns(cols: seq<string>, timeKey: string): (names: seq<string>)
    ensures forall k :: k in names <==> k in cols && k != "start_time" && k != timeKey
    ensures Distinct(cols) ==> Distinct(names)
  {
    Remove(Remove(cols, "start_time"), timeKey)
  }

  /** The frame of `rs` indexed by `stamps`, the timestamps of its records:
      one row per record, and one column per value column, holding at each
      record's row that record's member of the column's name. */
  function IndexedFrame(rs: seq<Record>, key: string, stamps: seq<int>): (t: Table)
    requires |stamps| == |rs| && Distinct(stamps)
    ensures Valid(t)
    ensures |t.index| == |rs|
    ensures forall x :: x in t.index <==> x in stamps
    ensures Names(t) == ValueColumns(FrameColumns(rs), key)
    ensures forall j, i :: 0 <= j < |t.columns| && 0 <= i < |rs| ==>
      Cell(t, j, stamps[i]) == Lookup(rs[i], t.columns[j].name)
  {
    var names := ValueColumns(FrameColumns(rs), key);
    var columns := seq(|names|, j requires 0 <= j < |names| => Column(names[j], CellsOf(rs, stamps, names[j])));
    Table(Sorted(stamps), columns)
  }

  /** The table of one endpoint response: the frame of its records with
      `start_time` dropped, the time column parsed and made the index, and
      every other key a column. An index with a repeated timestamp cannot be
      aligned by the join that follows, so it is an error here. */
  function EndpointTable(category: string, resp: EndpointData, parse: Value -> Option<int>): (r: Result<Table>)
    ensures r.Ok? ==> Valid(r.value)
  {
    match TimeColumn(category, resp)
    case Err(e) => Err(e)
    case Ok(key) =>
      match ParseStamps(resp.data, key, parse)
      case None => Err(UnparsableTimestamp)
      case Some(stamps) =>
        if !Distinct(stamps) then Err(DuplicateTimestamps)
        else Ok(IndexedFrame(resp.data, key, stamps))
  }

  /** A table was built exactly when the time column was found, its values
      parsed and none repeated. */
  lemma EndpointTableBuilt(category: string, resp: EndpointData, parse: Value -> Option<int>)
    requires EndpointTable(category, resp, parse).Ok?
    ensures TimeColumn(category, resp).Ok?
    ensures ParseStamps(resp.data, TimeColumn(category, resp).value, parse).Some?
    ensures var key := TimeColumn(category, resp).value;
      var stamps := ParseStamps(resp.data, key, parse).value;
      Distinct(stamps) && EndpointTable(category, resp, parse).value == IndexedFrame(resp.data, key, stamps)
  {
  }

  /** What the table of one endpoint holds: the keys of its records except
      `start_time` and the time column, each once; never `datetime`, and
      never `date` for a day-window endpoint, since that column became the
      index. */
  lemma EndpointTableColumns(category: string, resp: EndpointData, parse: Value -> Option<int>)
    requires EndpointTable(category, resp, parse).Ok?
    ensures var t := EndpointTable(category, resp, parse).value;
      var key := TimeColumn(category, resp).value;
      && Distinct(Names(t))
      && "start_time" !in Names(t)
      && "datetime" !in Names(t)
      && (WindowOf(category, resp.endpoint) == Ok("day") ==> "date" !in Names(t))
      && forall k :: k in Names(t) <==>
           k != "start_time" && k != key && exists i :: 0 <= i < |resp.data| && HasKey(resp.data[i], k)
  {
    EndpointTableBuilt(category, resp, parse);
    TimeColumnChoice(category, resp);
    var key := TimeColumn(category, resp).value;
    var cols := FrameColumns(resp.data);
    var names := Names(EndpointTable(category, resp, parse).value);
    assert names == Remove(Remove(cols, "start_time"), key);
    assert forall k :: k in names <==> k in cols && k != "start_time" && k != key;
  }

  /** A table fails to build exactly where a step of the build raises: the
      time column's `KeyError` or clash, an unreadable timestamp, or a
      repeated one. */
  lemma EndpointTableFails(category: string, resp: EndpointData, parse: Value -> Option<int>)
    ensures TimeColumn(category, resp).Err? ==>
      EndpointTable(category, resp, parse) == Err(TimeColumn(category, resp).exception)
    ensures TimeColumn(category, resp).Ok? && ParseStamps(resp.data, TimeColumn(category, resp).value, parse).None? ==>
      EndpointTable(category, resp, parse) == Err(UnparsableTimestamp)
    ensures TimeColumn(category, resp).Ok? && ParseStamps(resp.data, TimeColumn(category, resp).value, parse).Some? ==>
      var stamps := ParseStamps(resp.data, TimeColumn(category, resp).value, parse).value;
      && (EndpointTable(category, resp, parse).Ok? <==> Distinct(stamps))
      && (!Distinct(stamps) ==> EndpointTable(category, resp, parse) == Err(DuplicateTimestamps))
  {
  }

  /** Which column the index is taken from: `date` exactly when the
      endpoint has a day window and its records carry `date`, and then no
      record carries `datetime`; `datetime` otherwise. */
  lemma TimeColumnChoice(category: string, resp: EndpointData)
    requires TimeColumn(category, resp).Ok?
    ensures var key := TimeColumn(category, resp).value;
      var cols := FrameColumns(resp.data);
      && WindowOf(category, resp.endpoint).Ok?
      && (key == "date" <==> WindowOf(category, resp.endpoint).value == "day" && "date" in cols)
      && (key == "date" ==> "datetime" !in cols)
      && (key != "date" ==> key == "datetime")
  {
  }

  /** The parsed timestamps are exactly the parsed time values of the
      records. */
  lemma StampsOfRecords(rs: seq<Record>, key: string, parse: Value -> Option<int>, stamps: seq<int>)
    requires ParseStamps(rs, key, parse) == Some(stamps)
    ensures forall x :: x in stamps <==> exists i :: 0 <= i < |rs| && parse(TimeValue(rs[i], key)) == Some(x)
  {
    forall x | x in stamps ensures exists i :: 0 <= i < |rs| && parse(TimeValue(rs[i], key)) == Some(x) {
      var i :| 0 <= i < |stamps| && stamps[i] == x;
      assert parse(TimeValue(rs[i], key)) == Some(x);
    }
  }

  /** The index of one endpoint's table has one row per record, and holds
      exactly the parsed time values of the records. */
  lemma EndpointTableIndex(category: string, resp: EndpointData, parse: Value -> Option<int>)
    requires EndpointTable(category, resp, parse).Ok?
    ensures var t := EndpointTable(category, resp, parse).value;
      var key := TimeColumn(category, resp).value;
      && |t.index| == |resp.data|
      && forall x :: x in t.index <==>
           exists i :: 0 <= i < |resp.data| && parse(TimeValue(resp.data[i], key)) == Some(x)
  {
    EndpointTableBuilt(category, resp, parse);
    var key := TimeColumn(category, resp).value;
    StampsOfRecords(resp.data, key, parse, ParseStamps(resp.data, key, parse).value);
  }

  /** Each record lands in the row of its timestamp: the cell of a column
      at that row is the record's member of that name, missing where the
      record has none. */
  lemma EndpointTableCells(category: string, resp: EndpointData, parse: Value -> Option<int>, j: nat, i: nat)
    requires EndpointTable(category, resp, parse).Ok?
    requires j < |EndpointTable(category, resp, parse).value.columns| && i < |resp.data|
    ensures var t := EndpointTable(category, resp, parse).value;
      var x := parse(TimeValue(resp.data[i], TimeColumn(category, resp).value));
      && x.Some?
      && Cell(t, j, x.value) == Lookup(resp.data[i], t.columns[j].name)
  {
    EndpointTableBuilt(category, resp, parse);
  }

  /** An endpoint that returned no records has no `start_time` column to
      drop, so building its table raises `KeyError`. */
  lemma EmptyEndpointRaises(category: string, endpoint: string, parse: Value -> Option<int>)
    ensures EndpointTable(category, EndpointData(endpoint, []), parse) == Err(KeyError("start_time"))
  {
    assert FrameColumns([]) == [];
  }

  // ---------------------------------------------------------------------------
  // A category's join
  // ---------------------------------------------------------------------------

  /** The endpoint tables in `responses` order; the first response whose
      table raises ends the build with that exception. */
  function CategoryTables(category: string, rs: seq<EndpointData>, parse: Value -> Option<int>): (r: Result<seq<Table>>)
    ensures r.Ok? ==> |r.value| == |rs|
    ensures r.Ok? ==> forall i :: 0 <= i < |rs| ==> EndpointTable(category, rs[i], parse) == Ok(r.value[i])
    ensures r.Err? ==> exists k :: (
      && 0 <= k < |rs|
      && (forall i :: 0 <= i < k ==> EndpointTable(category, rs[i], parse).Ok?)
      && EndpointTable(category, rs[k], parse) == Err(r.exception))
  {
    Collect(resp => EndpointTable(category, resp, parse), rs)
  }

  /** `pd.concat(df_list, sort=True, axis=1)` over the endpoint tables;
      concatenating no table at all raises. */
  function CategoryTable(category: string, rs: seq<EndpointData>, parse: Value -> Option<int>): (r: Result<Table>)
    ensures rs == [] ==> r == Err(NoObjectsToConcatenate)
    ensures r.Ok? <==> rs != [] && CategoryTables(category, rs, parse).Ok?
    ensures CategoryTables(category, rs, parse).Err? ==> r == Err(CategoryTables(category, rs, parse).exception)
    ensures r.Ok? ==> Valid(r.value)
  {
    match CategoryTables(category, rs, parse)
    case Err(e) => Err(e)
    case Ok(ts) =>
      if ts == [] then Err(NoObjectsToConcatenate)
      else
        CategoryTablesValid(category, rs, parse);
        Ok(Concat(ts))
  }

  /** The category table's columns are the endpoint tables' columns, so
      their count is the sum of the endpoint tables' counts, and its index
      is the union of their indexes. */
  lemma CategoryTableShape(category: string, rs: seq<EndpointData>, parse: Value -> Option<int>)
    requires CategoryTable(category, rs, parse).Ok?
    ensures var t := CategoryTable(category, rs, parse).value;
      var ts := CategoryTables(category, rs, parse).value;
      && |t.columns| == ColumnCount(ts)
      && (forall k :: 0 <= k < |rs| ==> EndpointTable(category, rs[k], parse) == Ok(ts[k]))
      && forall x :: x in t.index <==> exists k :: 0 <= k < |ts| && x in ts[k].index
  {
  }

  /** No timestamp is lost: the parsed time of every record of every
      response is a row of the category table. */
  lemma NoTimestampLost(category: string, rs: seq<EndpointData>, parse: Value -> Option<int>, k: nat, i: nat)
    requires CategoryTable(category, rs, parse).Ok?
    requires k < |rs| && i < |rs[k].data|
    ensures EndpointTable(category, rs[k], parse).Ok?
    ensures var x := parse(TimeValue(rs[k].data[i], TimeColumn(category, rs[k]).value));
      x.Some? && x.value in CategoryTable(category, rs, parse).value.index
  {
    var ts := CategoryTables(category, rs, parse).value;
    assert EndpointTable(category, rs[k], parse) == Ok(ts[k]);
    EndpointTableIndex(category, rs[k], parse);
    var x := parse(TimeValue(rs[k].data[i], TimeColumn(category, rs[k]).value));
    assert x.value in ts[k].index;
  }

  /** Every endpoint table the build yields is a well-formed table. */
  lemma CategoryTablesValid(category: string, rs: seq<EndpointData>, parse: Value -> Option<int>)
    requires CategoryTables(category, rs, parse).Ok?
    ensures var ts := CategoryTables(category, rs, parse).value;
      forall m :: 0 <= m < |ts| ==> Valid(ts[m])
  {
    var ts := CategoryTables(category, rs, parse).value;
    forall m | 0 <= m < |ts| ensures Valid(ts[m]) {
      assert EndpointTable(category, rs[m], parse) == Ok(ts[m]);
    }
  }

  /** Column `j` of response `k`'s table is column `ColumnCount(ts[..k]) + j`
      of the category table `t`, with the same label and the same cells: a
      row that response lacks reads as missing there. */
  lemma CategoryTableCells(category: string, rs: seq<EndpointData>, parse: Value -> Option<int>,
                           ts: seq<Table>, t: Table, k: nat, j: nat, y: int)
    requires CategoryTables(category, rs, parse) == Ok(ts)
    requires CategoryTable(category, rs, parse) == Ok(t)
    requires k < |ts| && j < |ts[k].columns|
    ensures ColumnCount(ts[..k]) + j < |t.columns|
    ensures t.columns[ColumnCount(ts[..k]) + j] == ts[k].columns[j]
    ensures Cell(t, ColumnCount(ts[..k]) + j, y) == Cell(ts[k], j, y)
    ensures y !in ts[k].index ==> Cell(t, ColumnCount(ts[..k]) + j, y) == None
  {
    CategoryTablesValid(category, rs, parse);
    ConcatCell(ts, t, k, j, y);
  }

  /** At the row of record `i` of response `k`, the category table `t` holds
      in each column of that response the record's member of that name. */
  lemma CategoryCellOfRecord(category: string, rs: seq<EndpointData>, parse: Value -> Option<int>,
                             ts: seq<Table>, t: Table, k: nat, j: nat, i: nat)
    requires CategoryTables(category, rs, parse) == Ok(ts)
    requires CategoryTable(category, rs, parse) == Ok(t)
    requires k < |rs| && i < |rs[k].data| && j < |ts[k].columns|
    ensures ColumnCount(ts[..k]) + j < |t.columns|
    ensures var x := parse(TimeValue(rs[k].data[i], TimeColumn(category, rs[k]).value));
      && x.Some?
      && Cell(t, ColumnCount(ts[..k]) + j, x.value) == Lookup(rs[k].data[i], t.columns[ColumnCount(ts[..k]) + j].name)
  {
    assert EndpointTable(category, rs[k], parse) == Ok(ts[k]);
    EndpointTableCells(category, rs[k], parse, j, i);
    var x := parse(TimeValue(rs[k].data[i], TimeColumn(category, rs[k]).value));
    CategoryTableCells(category, rs, parse, ts, t, k, j, x.value);
  }

  // ---------------------------------------------------------------------------
  // JSONExtractor
  // ---------------------------------------------------------------------------

  /** What `load_json` hands back for a file: the decoded list of
      `{endpoint, data}` entries, or None (it catches a failed read or a bad
      document itself and logs it); `LoadRaised` is an `IOError` or
      `JSONDecodeError` that reaches `extract`'s own `except` clause. */
  datatype JsonLoad = Loaded(responses: seq<EndpointData>) | LoadedNone | LoadRaised

  const UnknownCategoryMessage: string := "Not a valid category. Failed to fetch JSON data."
  const LoadedNoneMessage: string := "Failed to load. The data is empty."
  const LoadRaisedMessage: string := "Failed to load JSON data"
  const SaveErrorPrefix: string := "An error occurred while saving CSV file: "

  /** The raw JSON file of a symbol and category, in the raw data directory. */
  function JsonName(symbol: string, category: string): string {
    "new-" + symbol + "-" + category + ".json"
  }

  /** The CSV file `extract` writes and `DataPreprocessor` reads back. */
  function CsvName(symbol: string, category: string): string {
    "new-" + symbol + "-" + category + ".csv"
  }

  class JSONExtractor {
    /** `self.data`: the last category table built. */
    var data: Table

    constructor()
      ensures data == Empty
    {
      data := Empty;
    }

    /** `extract`: checks the category, loads `new-{symbol}-{category}.json`,
        builds each endpoint's table in `responses` order, joins them into
        `data` and writes `new-{symbol}-{category}.csv`. `loaded` and
        `written` name the files read and written, if any. A failure never
        carries data, and `data` changes only when the join was built. */
    method Extract(symbol: string, category: string, load: string -> JsonLoad,
                   save: (string, Table) -> Option<string>, parse: Value -> Option<int>)
      returns (out: Outcome<Table>, loaded: Option<string>, written: Option<string>)
      modifies this
      ensures category !in EndpointColumns ==>
        out == Returned(Failure(UnknownCategoryMessage)) && loaded.None? && written.None? && data == old(data)
      ensures category in EndpointColumns ==> loaded == Some(JsonName(symbol, category))
      ensures category in EndpointColumns && load(JsonName(symbol, category)).LoadedNone? ==>
        out == Returned(Failure(LoadedNoneMessage)) && written.None? && data == old(data)
      ensures category in EndpointColumns && load(JsonName(symbol, category)).LoadRaised? ==>
        out == Returned(Failure(LoadRaisedMessage)) && written.None? && data == old(data)
      ensures category in EndpointColumns && load(JsonName(symbol, category)).Loaded? ==>
        var built := CategoryTable(category, load(JsonName(symbol, category)).responses, parse);
        && (built.Err? ==> out == Raised(built.exception) && written.None? && data == old(data))
        && (built.Ok? ==>
              && data == built.value
              && written == Some(CsvName(symbol, category))
              && (save(CsvName(symbol, category), data).None? ==> out == Returned(Response(true, None, Some(data))))
              && (save(CsvName(symbol, category), data).Some? ==>
                    out == Returned(Response(true, Some(SaveErrorPrefix + save(CsvName(symbol, category), data).value), None))))
      ensures out.Returned? && !out.response.isSuccess ==> out.response.data.None?
      ensures out.Returned? && out.response.data.Some? ==> out.response.data.value == data && Valid(data)
    {
      loaded, written := None, None;
      if category !in EndpointColumns {
        return Returned(Failure(UnknownCategoryMessage)), loaded, written;
      }
      var jsonName := JsonName(symbol, category);
      loaded := Some(jsonName);
      var payload := load(jsonName);
      if payload.LoadRaised? {
        return Returned(Failure(LoadRaisedMessage)), loaded, written;
      }
      if payload.LoadedNone? {
        return Returned(Failure(LoadedNoneMessage)), loaded, written;
      }
      var responses := payload.responses;
      var dfList: seq<Table> := [];
      for i := 0 to |responses|
        invariant CategoryTables(category, responses[..i], parse) == Ok(dfList)
      {
        assert responses[..i + 1][..i] == responses[..i];
        var df := EndpointTable(category, responses[i], parse);
        if df.Err? {
          CategoryTablesStop(category, responses, parse, i);
          return Raised(df.exception), loaded, written;
        }
        dfList := dfList + [df.value];
      }
      assert responses[..|responses|] == responses;
      if dfList == [] {
        return Raised(NoObjectsToConcatenate), loaded, written;
      }
      CategoryTablesValid(category, responses, parse);
      assert CategoryTable(category, responses, parse) == Ok(Concat(dfList));
      data := Concat(dfList);
      var csvName := CsvName(symbol, category);
      written := Some(csvName);
      var saveError := save(csvName, data);
      if saveError.Some? {
        return Returned(Response(true, Some(SaveErrorPrefix + saveError.value), None)), loaded, written;
      }
      out := Returned(Response(true, None, Some(data)));
    }
  }

  /** Once a response's table raises, the whole build raises that
      exception, whatever follows. */
  lemma CategoryTablesStop(category: string, rs: seq<EndpointData>, parse: Value -> Option<int>, i: nat)
    requires i < |rs|
    requires CategoryTables(category, rs[..i], parse).Ok?
    requires EndpointTable(category, rs[i], parse).Err?
    ensures CategoryTables(category, rs, parse) == Err(EndpointTable(category, rs[i], parse).exception)
    ensures CategoryTable(category, rs, parse) == Err(EndpointTable(category, rs[i], parse).exception)
  {
    CollectStops(resp => EndpointTable(category, resp, parse), rs, i);
  }
}
