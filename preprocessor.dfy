/** The symbol merger (src/pipeline/preprocessor.py): `DataPreprocessor`
    loads the seven per-category CSV files of one symbol, namespaces the
    columns of the two flow categories and joins everything column-wise into
    one table. */
module Preprocessor {
  import opened Responses
  import opened Frames
  import opened Connector
  import opened Extractor

  /** `SYMBOLS`: the symbols the merger accepts. */
  const Symbols: seq<string> := ["btc", "eth"]
  const DefaultSymbol: string := "btc"

  /** `ENDPOINTS`: the categories, in the order their files are loaded. */
  const Endpoints: seq<string> := [
    "market-data", "network-data", "exchange-flows", "miner-flows", "market-indicator",
    "network-indicator", "flow-indicator"
  ]

  const MinerPrefix: string := "miner_"
  const ExchangePrefix: string := "exchange_"
  const NotFoundPrefix: string := "File Not Found: "

  /** `symbol if symbol in SYMBOLS and symbol is not None else 'btc'`. */
  function ChooseSymbol(symbol: Option<string>): (s: string)
    ensures s in Symbols
    ensures symbol.Some? && symbol.value in Symbols ==> s == symbol.value
    ensures !(symbol.Some? && symbol.value in Symbols) ==> s == DefaultSymbol
  {
    if symbol.Some? && symbol.value in Symbols then symbol.value else DefaultSymbol
  }

  /** Choosing again from a chosen symbol keeps it. */
  lemma ChooseSymbolIdempotent(symbol: Option<string>)
    ensures ChooseSymbol(Some(ChooseSymbol(symbol))) == ChooseSymbol(symbol)
  {
  }

  // ---------------------------------------------------------------------------
  // The category tables, as an insertion-ordered dictionary
  // ---------------------------------------------------------------------------

  /** One entry of `raw_data_files`: a category and its table. */
  datatype Entry = Entry(endpoint: string, table: Table)

  /** The keys of the dictionary, in insertion order. */
  function Keys(es: seq<Entry>): (keys: seq<string>)
    ensures |keys| == |es|
    ensures forall i :: 0 <= i < |es| ==> keys[i] == es[i].endpoint
  {
    if es == [] then [] else [es[0].endpoint] + Keys(es[1..])
  }

  /** `raw_data_files.values()`: the tables, in insertion order. */
  function Tables(es: seq<Entry>): (ts: seq<Table>)
    ensures |ts| == |es|
    ensures forall i :: 0 <= i < |es| ==> ts[i] == es[i].table
  {
    seq(|es|, i requires 0 <= i < |es| => es[i].table)
  }

  /** `raw_data_files.get(endpoint)`. */
  function Get(es: seq<Entry>, endpoint: string): (r: Option<Table>)
    ensures r.Some? <==> endpoint in Keys(es)
  {
    if es == [] then None
    else if es[0].endpoint == endpoint then Some(es[0].table)
    else Get(es[1..], endpoint)
  }

  /** `raw_data_files[e.endpoint] = e.table`: a new key goes last, a present
      key keeps its place. */
  function Put(es: seq<Entry>, e: Entry): (r: seq<Entry>)
    ensures Keys(r) == if e.endpoint in Keys(es) then Keys(es) else Keys(es) + [e.endpoint]
  {
    if es == [] then [e]
    else if es[0].endpoint == e.endpoint then [e] + es[1..]
    else
      var rest := Put(es[1..], e);
      assert ([es[0]] + rest)[1..] == rest;
      [es[0]] + rest
  }

  /** After storing, the key finds the new table and every other key finds
      what it found before. */
  lemma {:induction false} PutGet(es: seq<Entry>, e: Entry, k: string)
    ensures Get(Put(es, e), e.endpoint) == Some(e.table)
    ensures k != e.endpoint ==> Get(Put(es, e), k) == Get(es, k)
  {
    if es != [] && es[0].endpoint != e.endpoint {
      PutGet(es[1..], e, k);
      assert ([es[0]] + Put(es[1..], e))[1..] == Put(es[1..], e);
    }
  }

  /** A fresh key is appended. */
  lemma {:induction false} PutFresh(es: seq<Entry>, e: Entry)
    requires e.endpoint !in Keys(es)
    ensures Put(es, e) == es + [e]
  {
    if es != [] {
      PutFresh(es[1..], e);
      assert [es[0]] + (es[1..] + [e]) == es + [e];
    }
  }

  // ---------------------------------------------------------------------------
  // Loading
  // ---------------------------------------------------------------------------

  /** What reading one CSV file gives: its table, indexed by the parsed
      `datetime` column, or the text of the `IOError` raised. */
  datatype CsvRead = Read(table: Table) | Unreadable(error: string)

  /** How many categories, in `ENDPOINTS` order, are read before the first
      file that cannot be read. */
  function ReadCount(symbol: string, disk: string -> CsvRead): (n: nat)
    ensures n <= |Endpoints|
    ensures forall i :: 0 <= i < n ==> disk(CsvName(symbol, Endpoints[i])).Read?
    ensures n < |Endpoints| ==> disk(CsvName(symbol, Endpoints[n])).Unreadable?
  {
    ReadCountFrom(symbol, disk, 0)
  }

  function ReadCountFrom(symbol: string, disk: string -> CsvRead, i: nat): (n: nat)
    requires i <= |Endpoints|
    ensures i <= n <= |Endpoints|
    ensures forall k :: i <= k < n ==> disk(CsvName(symbol, Endpoints[k])).Read?
    ensures n < |Endpoints| ==> disk(CsvName(symbol, Endpoints[n])).Unreadable?
    decreases |Endpoints| - i
  {
    if i == |Endpoints| || disk(CsvName(symbol, Endpoints[i])).Unreadable? then i
    else ReadCountFrom(symbol, disk, i + 1)
  }

  /** The entries of the first `n` categories, each with the table read
      from its file. */
  function ReadEntries(symbol: string, disk: string -> CsvRead, n: nat): (es: seq<Entry>)
    requires n <= |Endpoints|
    requires forall i :: 0 <= i < n ==> disk(CsvName(symbol, Endpoints[i])).Read?
    ensures |es| == n
    ensures forall i :: 0 <= i < n ==> es[i] == Entry(Endpoints[i], disk(CsvName(symbol, Endpoints[i])).table)
  {
    if n == 0 then []
    else ReadEntries(symbol, disk, n - 1) + [Entry(Endpoints[n - 1], disk(CsvName(symbol, Endpoints[n - 1])).table)]
  }

  /** The categories are seven distinct names. */
  lemma EndpointsDistinct()
    ensures |Endpoints| == 7 && Distinct(Endpoints)
  {
  }

  /** The loaded entries are keyed by the first `n` categories in `ENDPOINTS`
      order, each holding its own file's table. */
  lemma ReadEntriesKeys(symbol: string, disk: string -> CsvRead, n: nat)
    requires n <= |Endpoints|
    requires forall i :: 0 <= i < n ==> disk(CsvName(symbol, Endpoints[i])).Read?
    ensures Keys(ReadEntries(symbol, disk, n)) == Endpoints[..n]
    ensures Distinct(Keys(ReadEntries(symbol, disk, n)))
    ensures forall i :: 0 <= i < n ==>
      Get(ReadEntries(symbol, disk, n), Endpoints[i]) == Some(disk(CsvName(symbol, Endpoints[i])).table)
  {
    var es := ReadEntries(symbol, disk, n);
    EndpointsDistinct();
    assert Keys(es) == Endpoints[..n];
    forall i | 0 <= i < n
      ensures Get(es, Endpoints[i]) == Some(disk(CsvName(symbol, Endpoints[i])).table)
    {
      GetAt(es, i);
    }
  }

  /** What the loop of `_load_data` ends with: the failure record it
      returns, if any, and the dictionary it leaves. */
  datatype LoadRun = LoadRun(failure: Option<Response<Table>>, stored: seq<Entry>)

  /** The loop of `_load_data` from category `i` on, with `es` stored so
      far: each file read is stored under its category, and the first file
      that cannot be read ends the loop with a failure record. */
  function LoadFrom(symbol: string, disk: string -> CsvRead, es: seq<Entry>, i: nat): (r: LoadRun)
    requires i <= |Endpoints|
    ensures var n := ReadCountFrom(symbol, disk, i);
      && (r.failure.None? <==> n == |Endpoints|)
      && (n < |Endpoints| ==> r.failure == Some(Failure(NotFoundPrefix + disk(CsvName(symbol, Endpoints[n])).error)))
    decreases |Endpoints| - i
  {
    if i == |Endpoints| then LoadRun(None, es)
    else match disk(CsvName(symbol, Endpoints[i]))
      case Unreadable(error) => LoadRun(Some(Failure(NotFoundPrefix + error)), es)
      case Read(t) => LoadFrom(symbol, disk, Put(es, Entry(Endpoints[i], t)), i + 1)
  }

  /** Whatever was stored before, the loop fails exactly when some file
      cannot be read, and then with the first such file's error. */
  lemma {:induction false} LoadFailure(symbol: string, disk: string -> CsvRead, es: seq<Entry>, i: nat)
    requires i <= ReadCount(symbol, disk)
    ensures var n := ReadCount(symbol, disk);
      && (LoadFrom(symbol, disk, es, i).failure.None? <==> n == |Endpoints|)
      && (n < |Endpoints| ==>
            LoadFrom(symbol, disk, es, i).failure == Some(Failure(NotFoundPrefix + disk(CsvName(symbol, Endpoints[n])).error)))
    decreases |Endpoints| - i
  {
    if i < ReadCount(symbol, disk) {
      var t := disk(CsvName(symbol, Endpoints[i])).table;
      LoadFailure(symbol, disk, Put(es, Entry(Endpoints[i], t)), i + 1);
    }
  }

  /** Starting from the entries of the first `i` categories, the loop stores
      the entries of every category read, in `ENDPOINTS` order: no key is
      ever stored twice. */
  lemma {:induction false} LoadStored(symbol: string, disk: string -> CsvRead, i: nat)
    requires i <= ReadCount(symbol, disk)
    ensures LoadFrom(symbol, disk, ReadEntries(symbol, disk, i), i).stored == ReadEntries(symbol, disk, ReadCount(symbol, disk))
    decreases |Endpoints| - i
  {
    if i < ReadCount(symbol, disk) {
      var front := ReadEntries(symbol, disk, i);
      var e := Entry(Endpoints[i], disk(CsvName(symbol, Endpoints[i])).table);
      assert LoadFrom(symbol, disk, front, i) == LoadFrom(symbol, disk, Put(front, e), i + 1);
      NextKeyFresh(symbol, disk, i);
      PutFresh(front, e);
      assert ReadEntries(symbol, disk, i + 1) == front + [e];
      LoadStored(symbol, disk, i + 1);
    }
  }

  /** The next category to load is not among those already loaded. */
  lemma NextKeyFresh(symbol: string, disk: string -> CsvRead, i: nat)
    requires i < |Endpoints|
    requires forall k :: 0 <= k < i ==> disk(CsvName(symbol, Endpoints[k])).Read?
    ensures Endpoints[i] !in Keys(ReadEntries(symbol, disk, i))
  {
    ReadEntriesKeys(symbol, disk, i);
    EndpointsDistinct();
    assert Endpoints[i] !in Endpoints[..i];
  }

  /** What is loaded is keyed by distinct categories, and holds well-formed
      tables when the files yield them. */
  lemma LoadedConsistent(symbol: string, disk: string -> CsvRead, n: nat)
    requires n <= |Endpoints|
    requires forall i :: 0 <= i < n ==> disk(CsvName(symbol, Endpoints[i])).Read?
    requires forall name :: disk(name).Read? ==> Valid(disk(name).table)
    ensures var es := ReadEntries(symbol, disk, n);
      && Keys(es) == Endpoints[..n]
      && Distinct(Keys(es))
      && forall k :: 0 <= k < |es| ==> es[k].endpoint in Endpoints && Valid(es[k].table)
  {
    ReadEntriesKeys(symbol, disk, n);
    var es := ReadEntries(symbol, disk, n);
    forall k | 0 <= k < |es| ensures es[k].endpoint in Endpoints && Valid(es[k].table) {
      var name := CsvName(symbol, Endpoints[k]);
      assert disk(name).Read?;
      assert es[k].table == disk(name).table;
    }
  }

  /** In entries with distinct keys, the key at position `i` finds the
      table at position `i`. */
  lemma {:induction false} GetAt(es: seq<Entry>, i: nat)
    requires i < |es| && Distinct(Keys(es))
    ensures Get(es, es[i].endpoint) == Some(es[i].table)
  {
    if i > 0 {
      assert Keys(es)[0] != Keys(es)[i];
      assert Keys(es[1..]) == Keys(es)[1..];
      GetAt(es[1..], i - 1);
    }
  }

  // ---------------------------------------------------------------------------
  // Namespacing
  // ---------------------------------------------------------------------------

  /** Every name of `names` with `prefix` in front. */
  function Namespace(prefix: string, names: seq<string>): (r: seq<string>)
    ensures |r| == |names|
    ensures forall i :: 0 <= i < |names| ==> r[i] == prefix + names[i]
  {
    seq(|names|, i requires 0 <= i < |names| => prefix + names[i])
  }

  /** The empty prefix changes nothing. */
  lemma NamespaceEmpty(names: seq<string>)
    ensures Namespace("", names) == names
  {
    forall i | 0 <= i < |names| ensures Namespace("", names)[i] == names[i] {
      assert "" + names[i] == names[i];
    }
  }

  /** A fixed prefix keeps names apart: distinct names stay distinct. */
  lemma NamespaceInjective(prefix: string, names: seq<string>)
    ensures Distinct(Namespace(prefix, names)) <==> Distinct(names)
  {
    var r := Namespace(prefix, names);
    forall i, j | 0 <= i < j < |names| && names[i] != names[j] ensures r[i] != r[j] {
      assert (prefix + names[i])[|prefix|..] == names[i];
      assert (prefix + names[j])[|prefix|..] == names[j];
    }
  }

  /** The prefix a category's columns take in the merged table. */
  function PrefixFor(endpoint: string): (p: string)
    ensures p == MinerPrefix <==> endpoint == "miner-flows"
    ensures p == ExchangePrefix <==> endpoint == "exchange-flows"
    ensures p == "" <==> endpoint != "miner-flows" && endpoint != "exchange-flows"
  {
    if endpoint == "miner-flows" then MinerPrefix
    else if endpoint == "exchange-flows" then ExchangePrefix
    else ""
  }

  /** `data.rename(columns={name: prefix + name ...})`: every column takes
      the prefix; index and cells stay as they are. */
  function Renamed(t: Table, prefix: string): (r: Table)
    ensures r.index == t.index && |r.columns| == |t.columns|
    ensures forall j :: 0 <= j < |t.columns| ==> r.columns[j].cells == t.columns[j].cells
    ensures Names(r) == Namespace(prefix, Names(t))
  {
    Table(t.index, seq(|t.columns|, j requires 0 <= j < |t.columns| => Column(prefix + t.columns[j].name, t.columns[j].cells)))
  }

  /** Renaming keeps a table well formed and keeps its labels distinct
      exactly when they were. */
  lemma RenamedKeeps(t: Table, prefix: string)
    ensures Valid(Renamed(t, prefix)) <==> Valid(t)
    ensures Distinct(Names(Renamed(t, prefix))) <==> Distinct(Names(t))
    ensures forall j, x :: 0 <= j < |t.columns| ==> Cell(Renamed(t, prefix), j, x) == Cell(t, j, x)
  {
    NamespaceInjective(prefix, Names(t));
  }

  /** One pass of the loop body of `merge_tables` on one entry. */
  function Namespaced(e: Entry): (r: Entry)
    ensures r.endpoint == e.endpoint
    ensures r.table.index == e.table.index
    ensures Names(r.table) == Namespace(PrefixFor(e.endpoint), Names(e.table))
  {
    if e.endpoint == "miner-flows" then Entry(e.endpoint, Renamed(e.table, MinerPrefix))
    else if e.endpoint == "exchange-flows" then Entry(e.endpoint, Renamed(e.table, ExchangePrefix))
    else NamespaceEmpty(Names(e.table)); e
  }

  /** What one pass does to a category beyond its labels: it stays well
      formed, its labels stay distinct, and its cells stay. */
  lemma NamespacedTable(e: Entry)
    ensures Valid(Namespaced(e).table) <==> Valid(e.table)
    ensures Distinct(Names(Namespaced(e).table)) <==> Distinct(Names(e.table))
    ensures forall j, x :: 0 <= j < |e.table.columns| ==> Cell(Namespaced(e).table, j, x) == Cell(e.table, j, x)
  {
    RenamedKeeps(e.table, PrefixFor(e.endpoint));
    if PrefixFor(e.endpoint) == "" {
      NamespaceEmpty(Names(e.table));
    }
  }

  /** Renaming twice puts the prefix in front twice. */
  lemma RenamedTwice(t: Table, prefix: string)
    ensures Names(Renamed(Renamed(t, prefix), prefix)) == Namespace(prefix + prefix, Names(t))
  {
    var twice := Names(Renamed(Renamed(t, prefix), prefix));
    forall j | 0 <= j < |twice| ensures twice[j] == (prefix + prefix) + Names(t)[j] {
      assert prefix + (prefix + Names(t)[j]) == (prefix + prefix) + Names(t)[j];
    }
  }

  /** The rename is not idempotent: since it works on the stored tables in
      place, a second pass puts a second prefix in front. */
  lemma NamespacedTwice(e: Entry)
    ensures Names(Namespaced(Namespaced(e)).table) == Namespace(PrefixFor(e.endpoint) + PrefixFor(e.endpoint), Names(e.table))
    ensures PrefixFor(e.endpoint) != "" && e.table.columns != [] ==>
      Names(Namespaced(Namespaced(e)).table) != Names(Namespaced(e).table)
  {
    var p := PrefixFor(e.endpoint);
    if p == "" {
      NamespaceEmpty(Names(e.table));
    } else {
      RenamedTwice(e.table, p);
      if e.table.columns != [] {
        assert |Names(Namespaced(Namespaced(e)).table)[0]| != |Names(Namespaced(e).table)[0]|;
      }
    }
  }

  /** Every entry after one pass. */
  function NamespacedAll(es: seq<Entry>): (r: seq<Entry>)
    ensures |r| == |es|
    ensures forall i :: 0 <= i < |es| ==> r[i] == Namespaced(es[i])
  {
    seq(|es|, i requires 0 <= i < |es| => Namespaced(es[i]))
  }

  // ---------------------------------------------------------------------------
  // The declared columns are disjoint once namespaced
  // ---------------------------------------------------------------------------

  predicate Disjoint(a: seq<string>, b: seq<string>) {
    forall i, j :: 0 <= i < |a| && 0 <= j < |b| ==> a[i] != b[j]
  }

  /** The columns a category declares (`ENDPOINT_COLUMNS`), as they are named
      in the merged table. */
  function Declared(endpoint: string): (names: seq<string>)
    requires endpoint in EndpointColumns
    ensures |names| == |EndpointColumns[endpoint]|
  {
    Namespace(PrefixFor(endpoint), EndpointColumns[endpoint])
  }

  predicate StartsWith(s: string, p: string) {
    |p| <= |s| && s[..|p|] == p
  }

  /** `y` is not `p` followed by a name of `xs`. */
  predicate Outside(p: string, xs: seq<string>, y: string) {
    !StartsWith(y, p) || y[|p|..] !in xs
  }

  lemma NamespaceDisjoint(p: string, xs: seq<string>, ys: seq<string>)
    requires forall j :: 0 <= j < |ys| ==> Outside(p, xs, ys[j])
    ensures Disjoint(Namespace(p, xs), ys)
  {
    forall i, j | 0 <= i < |xs| && 0 <= j < |ys| ensures Namespace(p, xs)[i] != ys[j] {
      if p + xs[i] == ys[j] {
        assert ys[j][..|p|] == p;
        assert ys[j][|p|..] == xs[i];
        assert Outside(p, xs, ys[j]);
      }
    }
  }

  lemma PrefixesDisjoint(p: string, xs: seq<string>, q: string, ys: seq<string>)
    requires p != [] && q != [] && p[0] != q[0]
    ensures Disjoint(Namespace(p, xs), Namespace(q, ys))
  {
    forall i, j | 0 <= i < |xs| && 0 <= j < |ys| ensures Namespace(p, xs)[i] != Namespace(q, ys)[j] {
      assert (p + xs[i])[0] == p[0];
      assert (q + ys[j])[0] == q[0];
    }
  }

  lemma DisjointSymmetric(a: seq<string>, b: seq<string>)
    requires Disjoint(a, b)
    ensures Disjoint(b, a)
  {
  }

  lemma DeclaredLists()
    ensures Declared("market-data") == MarketDataColumns
    ensures Declared("network-data") == NetworkDataColumns
    ensures Declared("exchange-flows") == Namespace(ExchangePrefix, ExchangeFlowsColumns)
    ensures Declared("miner-flows") == Namespace(MinerPrefix, MinerFlowsColumns)
    ensures Declared("market-indicator") == MarketIndicatorColumns
    ensures Declared("network-indicator") == NetworkIndicatorColumns
    ensures Declared("flow-indicator") == FlowIndicatorColumns
  {
    NamespaceEmpty(MarketDataColumns);
    NamespaceEmpty(NetworkDataColumns);
    NamespaceEmpty(MarketIndicatorColumns);
    NamespaceEmpty(NetworkIndicatorColumns);
    NamespaceEmpty(FlowIndicatorColumns);
  }

  // Each unprefixed list against each other one.
  lemma MarketDataNetworkData() ensures Disjoint(MarketDataColumns, NetworkDataColumns) {}
  lemma MarketDataMarketIndicator() ensures Disjoint(MarketDataColumns, MarketIndicatorColumns) {}
  lemma MarketDataNetworkIndicator() ensures Disjoint(MarketDataColumns, NetworkIndicatorColumns) {}
  lemma MarketDataFlowIndicator() ensures Disjoint(MarketDataColumns, FlowIndicatorColumns) {}
  lemma NetworkDataMarketIndicator() ensures Disjoint(NetworkDataColumns, MarketIndicatorColumns) {}
  lemma NetworkDataNetworkIndicator() ensures Disjoint(NetworkDataColumns, NetworkIndicatorColumns) {}
  lemma NetworkDataFlowIndicator() ensures Disjoint(NetworkDataColumns, FlowIndicatorColumns) {}
  lemma MarketIndicatorNetworkIndicator() ensures Disjoint(MarketIndicatorColumns, NetworkIndicatorColumns) {}
  lemma MarketIndicatorFlowIndicator() ensures Disjoint(MarketIndicatorColumns, FlowIndicatorColumns) {}
  lemma NetworkIndicatorFlowIndicator() ensures Disjoint(NetworkIndicatorColumns, FlowIndicatorColumns) {}

  // No unprefixed column is a prefix followed by a flow column.
  lemma ExchangeOutsideMarketData()
    ensures forall j :: 0 <= j < |MarketDataColumns| ==> Outside(ExchangePrefix, ExchangeFlowsColumns, MarketDataColumns[j])
  {}
  lemma MinerOutsideMarketData()
    ensures forall j :: 0 <= j < |MarketDataColumns| ==> Outside(MinerPrefix, MinerFlowsColumns, MarketDataColumns[j])
  {}
  lemma ExchangeOutsideNetworkData()
    ensures forall j :: 0 <= j < |NetworkDataColumns| ==> Outside(ExchangePrefix, ExchangeFlowsColumns, NetworkDataColumns[j])
  {}
  lemma MinerOutsideNetworkData()
    ensures forall j :: 0 <= j < |NetworkDataColumns| ==> Outside(MinerPrefix, MinerFlowsColumns, NetworkDataColumns[j])
  {}
  lemma ExchangeOutsideMarketIndicator()
    ensures forall j :: 0 <= j < |MarketIndicatorColumns| ==> Outside(ExchangePrefix, ExchangeFlowsColumns, MarketIndicatorColumns[j])
  {}
  lemma MinerOutsideMarketIndicator()
    ensures forall j :: 0 <= j < |MarketIndicatorColumns| ==> Outside(MinerPrefix, MinerFlowsColumns, MarketIndicatorColumns[j])
  {}
  lemma ExchangeOutsideNetworkIndicator()
    ensures forall j :: 0 <= j < |NetworkIndicatorColumns| ==> Outside(ExchangePrefix, ExchangeFlowsColumns, NetworkIndicatorColumns[j])
  {}
  lemma MinerOutsideNetworkIndicator()
    ensures forall j :: 0 <= j < |NetworkIndicatorColumns| ==> Outside(MinerPrefix, MinerFlowsColumns, NetworkIndicatorColumns[j])
  {}
  lemma ExchangeOutsideFlowIndicator()
    ensures forall j :: 0 <= j < |FlowIndicatorColumns| ==> Outside(ExchangePrefix, ExchangeFlowsColumns, FlowIndicatorColumns[j])
  {
    assert "whale_ratio" !in ExchangeFlowsColumns;
    assert "supply_ratio" !in ExchangeFlowsColumns;
  }
  lemma MinerOutsideFlowIndicator()
    ensures forall j :: 0 <= j < |FlowIndicatorColumns| ==> Outside(MinerPrefix, MinerFlowsColumns, FlowIndicatorColumns[j])
  {
    assert "supply_ratio" !in MinerFlowsColumns;
  }

  // Each declared list names each column once.
  lemma ExchangeFlowsDistinct() ensures Distinct(ExchangeFlowsColumns) {}
  lemma MinerFlowsDistinct() ensures Distinct(MinerFlowsColumns) {}
  lemma MarketDataDistinct() ensures Distinct(MarketDataColumns) {
    MarketDataHalvesDistinct();
    MarketDataHalvesDisjoint();
    DistinctAppend(MarketDataColumns[..9], MarketDataColumns[9..]);
    assert MarketDataColumns[..9] + MarketDataColumns[9..] == MarketDataColumns;
  }
  lemma MarketDataHalvesDistinct()
    ensures Distinct(MarketDataColumns[..9]) && Distinct(MarketDataColumns[9..])
  {}
  lemma MarketDataHalvesDisjoint()
    ensures forall x :: x in MarketDataColumns[..9] ==> x !in MarketDataColumns[9..]
  {}
  lemma NetworkDataDistinct() ensures Distinct(NetworkDataColumns) {}
  lemma MarketIndicatorDistinct() ensures Distinct(MarketIndicatorColumns) {}
  lemma NetworkIndicatorDistinct() ensures Distinct(NetworkIndicatorColumns) {}
  lemma FlowIndicatorDistinct() ensures Distinct(FlowIndicatorColumns) {}

  /** Each category declares each column once, also once namespaced. */
  lemma DeclaredDistinct(e: string)
    requires e in Endpoints
    ensures e in EndpointColumns && Distinct(Declared(e))
  {
    DeclaredLists();
    if e == "exchange-flows" {
      ExchangeFlowsDistinct();
      NamespaceInjective(ExchangePrefix, ExchangeFlowsColumns);
    } else if e == "miner-flows" {
      MinerFlowsDistinct();
      NamespaceInjective(MinerPrefix, MinerFlowsColumns);
    } else if e == "market-data" {
      MarketDataDistinct();
    } else if e == "network-data" {
      NetworkDataDistinct();
    } else if e == "market-indicator" {
      MarketIndicatorDistinct();
    } else if e == "network-indicator" {
      NetworkIndicatorDistinct();
    } else {
      FlowIndicatorDistinct();
    }
  }

  /** `exchange_` columns against every other category. */
  lemma ExchangeDisjoint(a: string, b: string)
    requires a == "exchange-flows" && b in Endpoints && b != a
    ensures a in EndpointColumns && b in EndpointColumns
    ensures Disjoint(Declared(a), Declared(b))
  {
    DeclaredLists();
    if b == "miner-flows" {
      PrefixesDisjoint(ExchangePrefix, ExchangeFlowsColumns, MinerPrefix, MinerFlowsColumns);
    } else if b == "market-data" {
      ExchangeOutsideMarketData();
      NamespaceDisjoint(ExchangePrefix, ExchangeFlowsColumns, MarketDataColumns);
    } else if b == "network-data" {
      ExchangeOutsideNetworkData();
      NamespaceDisjoint(ExchangePrefix, ExchangeFlowsColumns, NetworkDataColumns);
    } else if b == "market-indicator" {
      ExchangeOutsideMarketIndicator();
      NamespaceDisjoint(ExchangePrefix, ExchangeFlowsColumns, MarketIndicatorColumns);
    } else if b == "network-indicator" {
      ExchangeOutsideNetworkIndicator();
      NamespaceDisjoint(ExchangePrefix, ExchangeFlowsColumns, NetworkIndicatorColumns);
    } else if b == "flow-indicator" {
      ExchangeOutsideFlowIndicator();
      NamespaceDisjoint(ExchangePrefix, ExchangeFlowsColumns, FlowIndicatorColumns);
    }
  }

  /** `miner_` columns against every category without a prefix. */
  lemma MinerDisjoint(a: string, b: string)
    requires a == "miner-flows" && b in Endpoints && b != a && b != "exchange-flows"
    ensures a in EndpointColumns && b in EndpointColumns
    ensures Disjoint(Declared(a), Declared(b))
  {
    DeclaredLists();
    if b == "market-data" {
      MinerOutsideMarketData();
      NamespaceDisjoint(MinerPrefix, MinerFlowsColumns, MarketDataColumns);
    } else if b == "network-data" {
      MinerOutsideNetworkData();
      NamespaceDisjoint(MinerPrefix, MinerFlowsColumns, NetworkDataColumns);
    } else if b == "market-indicator" {
      MinerOutsideMarketIndicator();
      NamespaceDisjoint(MinerPrefix, MinerFlowsColumns, MarketIndicatorColumns);
    } else if b == "network-indicator" {
      MinerOutsideNetworkIndicator();
      NamespaceDisjoint(MinerPrefix, MinerFlowsColumns, NetworkIndicatorColumns);
    } else if b == "flow-indicator" {
      MinerOutsideFlowIndicator();
      NamespaceDisjoint(MinerPrefix, MinerFlowsColumns, FlowIndicatorColumns);
    }
  }

  /** Two categories without a prefix. */
  lemma PlainDisjoint(a: string, b: string)
    requires a in Endpoints && b in Endpoints && a != b && PrefixFor(a) == "" && PrefixFor(b) == ""
    ensures a in EndpointColumns && b in EndpointColumns
    ensures Disjoint(Declared(a), Declared(b))
  {
    DeclaredLists();
    if (a == "market-data" && b == "network-data") || (a == "network-data" && b == "market-data") {
      MarketDataNetworkData();
      DisjointSymmetric(MarketDataColumns, NetworkDataColumns);
    } else if (a == "market-data" && b == "market-indicator") || (a == "market-indicator" && b == "market-data") {
      MarketDataMarketIndicator();
      DisjointSymmetric(MarketDataColumns, MarketIndicatorColumns);
    } else if (a == "market-data" && b == "network-indicator") || (a == "network-indicator" && b == "market-data") {
      MarketDataNetworkIndicator();
      DisjointSymmetric(MarketDataColumns, NetworkIndicatorColumns);
    } else if (a == "market-data" && b == "flow-indicator") || (a == "flow-indicator" && b == "market-data") {
      MarketDataFlowIndicator();
      DisjointSymmetric(MarketDataColumns, FlowIndicatorColumns);
    } else if (a == "network-data" && b == "market-indicator") || (a == "market-indicator" && b == "network-data") {
      NetworkDataMarketIndicator();
      DisjointSymmetric(NetworkDataColumns, MarketIndicatorColumns);
    } else if (a == "network-data" && b == "network-indicator") || (a == "network-indicator" && b == "network-data") {
      NetworkDataNetworkIndicator();
      DisjointSymmetric(NetworkDataColumns, NetworkIndicatorColumns);
    } else if (a == "network-data" && b == "flow-indicator") || (a == "flow-indicator" && b == "network-data") {
      NetworkDataFlowIndicator();
      DisjointSymmetric(NetworkDataColumns, FlowIndicatorColumns);
    } else if (a == "market-indicator" && b == "network-indicator") || (a == "network-indicator" && b == "market-indicator") {
      MarketIndicatorNetworkIndicator();
      DisjointSymmetric(MarketIndicatorColumns, NetworkIndicatorColumns);
    } else if (a == "market-indicator" && b == "flow-indicator") || (a == "flow-indicator" && b == "market-indicator") {
      MarketIndicatorFlowIndicator();
      DisjointSymmetric(MarketIndicatorColumns, FlowIndicatorColumns);
    } else if (a == "network-indicator" && b == "flow-indicator") || (a == "flow-indicator" && b == "network-indicator") {
      NetworkIndicatorFlowIndicator();
      DisjointSymmetric(NetworkIndicatorColumns, FlowIndicatorColumns);
    }
  }

  /** After namespacing, no column name is declared by two categories: the
      flow categories' shared list is told apart by the prefixes, and the
      indicator columns that begin with `exchange_` or `miner_` do not
      continue with a flow column. */
  lemma DeclaredDisjoint(a: string, b: string)
    requires a in Endpoints && b in Endpoints && a != b
    ensures a in EndpointColumns && b in EndpointColumns
    ensures Disjoint(Declared(a), Declared(b))
  {
    if a == "exchange-flows" {
      ExchangeDisjoint(a, b);
    } else if b == "exchange-flows" {
      ExchangeDisjoint(b, a);
      DisjointSymmetric(Declared(b), Declared(a));
    } else if a == "miner-flows" {
      MinerDisjoint(a, b);
    } else if b == "miner-flows" {
      MinerDisjoint(b, a);
      DisjointSymmetric(Declared(b), Declared(a));
    } else {
      PlainDisjoint(a, b);
    }
  }

  // ---------------------------------------------------------------------------
  // The merged table
  // ---------------------------------------------------------------------------

  /** `pd.concat(raw_data_files.values(), sort=True, axis=1)` after the
      rename loop. */
  function Merged(es: seq<Entry>): (t: Table)
    requires forall k :: 0 <= k < |es| ==> Valid(es[k].table)
    ensures Valid(t)
    ensures t.columns == JoinColumns(Tables(NamespacedAll(es)))
  {
    NamespacedValid(es);
    Concat(Tables(NamespacedAll(es)))
  }

  /** The rename loop keeps every stored table well formed. */
  lemma NamespacedValid(es: seq<Entry>)
    requires forall k :: 0 <= k < |es| ==> Valid(es[k].table)
    ensures forall k :: 0 <= k < |es| ==> Valid(Tables(NamespacedAll(es))[k])
  {
    forall k | 0 <= k < |es| ensures Valid(Tables(NamespacedAll(es))[k]) {
      NamespacedTable(es[k]);
    }
  }

  /** Column `j` of category `k` is a column of the merged table (whose
      columns are the joined columns): labelled with the category's prefix
      in front of its own label, holding the same cells, so missing where
      the category has no row. */
  lemma MergedColumn(es: seq<Entry>, k: nat, j: nat)
    requires k < |es| && j < |es[k].table.columns|
    requires Valid(es[k].table)
    ensures var columns := JoinColumns(Tables(NamespacedAll(es)));
      var c := ColumnCount(Tables(NamespacedAll(es))[..k]) + j;
      && c < |columns|
      && columns[c].name == PrefixFor(es[k].endpoint) + es[k].table.columns[j].name
      && columns[c].cells == es[k].table.columns[j].cells
      && forall x :: x in columns[c].cells ==> x in es[k].table.index
  {
    var ts := Tables(NamespacedAll(es));
    JoinColumnAt(ts, k, j);
    NamespacedColumn(es[k], j);
    assert ts[k] == Namespaced(es[k]).table;
  }

  /** One pass renames column `j` of a category and keeps its cells. */
  lemma NamespacedColumn(e: Entry, j: nat)
    requires j < |e.table.columns|
    ensures Namespaced(e).table.index == e.table.index
    ensures j < |Namespaced(e).table.columns|
    ensures Namespaced(e).table.columns[j] == Column(PrefixFor(e.endpoint) + e.table.columns[j].name, e.table.columns[j].cells)
  {
    if PrefixFor(e.endpoint) == "" {
      assert "" + e.table.columns[j].name == e.table.columns[j].name;
    }
  }

  /** The merged index is the union of the categories' indexes. */
  lemma MergedIndex(es: seq<Entry>)
    requires forall i :: 0 <= i < |es| ==> Valid(es[i].table)
    ensures forall x :: x in Merged(es).index <==> exists k :: 0 <= k < |es| && x in es[k].table.index
  {
    var ts := Tables(NamespacedAll(es));
    forall k | 0 <= k < |es| ensures ts[k].index == es[k].table.index {
      NamespacedTable(es[k]);
    }
  }

  /** The loaded table of a category carries only columns the category
      declares, each once. */
  predicate DeclaresItsColumns(e: Entry) {
    && e.endpoint in Endpoints
    && e.endpoint in EndpointColumns
    && Distinct(Names(e.table))
    && forall n :: n in Names(e.table) ==> n in EndpointColumns[e.endpoint]
  }

  lemma DistinctAppend(a: seq<string>, b: seq<string>)
    requires Distinct(a) && Distinct(b)
    requires forall x :: x in a ==> x !in b
    ensures Distinct(a + b)
  {
    forall i, j | 0 <= i < j < |a + b| ensures (a + b)[i] != (a + b)[j] {
      if j >= |a| && i < |a| {
        assert (a + b)[j] == b[j - |a|] && b[j - |a|] in b;
        assert (a + b)[i] in a;
      }
    }
  }

  lemma NamespaceSubset(p: string, a: seq<string>, b: seq<string>)
    requires forall n :: n in a ==> n in b
    ensures forall x :: x in Namespace(p, a) ==> x in Namespace(p, b)
  {
    forall x | x in Namespace(p, a) ensures x in Namespace(p, b) {
      var i :| 0 <= i < |a| && Namespace(p, a)[i] == x;
      assert a[i] in b;
      var m :| 0 <= m < |b| && b[m] == a[i];
      assert Namespace(p, b)[m] == x;
    }
  }

  /** A category that carries only its declared columns, each once, carries
      after the rename distinct names among its namespaced declared ones. */
  lemma NamespacedDeclared(e: Entry)
    requires DeclaresItsColumns(e)
    ensures Distinct(Names(Namespaced(e).table))
    ensures forall x :: x in Names(Namespaced(e).table) ==> x in Declared(e.endpoint)
  {
    NamespacedTable(e);
    NamespaceInjective(PrefixFor(e.endpoint), Names(e.table));
    NamespaceSubset(PrefixFor(e.endpoint), Names(e.table), EndpointColumns[e.endpoint]);
  }

  /** Dropping the first entry keeps the keys distinct. */
  lemma DistinctTail(es: seq<Entry>)
    requires es != [] && Distinct(Keys(es))
    ensures Distinct(Keys(es[1..]))
    ensures forall k :: 0 <= k < |es| - 1 ==> es[1..][k].endpoint != es[0].endpoint
  {
    var keys := Keys(es);
    assert keys[1..] == Keys(es[1..]);
    DistinctDrop(keys);
    forall k | 0 <= k < |es| - 1 ensures es[1..][k].endpoint != es[0].endpoint {
      assert keys[1..][k] in keys[1..];
    }
  }

  lemma DistinctDrop<T>(s: seq<T>)
    requires s != [] && Distinct(s)
    ensures Distinct(s[1..]) && s[0] !in s[1..]
  {
    forall i, j | 0 <= i < j < |s| - 1 ensures s[1..][i] != s[1..][j] {
      assert s[i + 1] != s[j + 1];
    }
  }

  /** The labels of the merged tables are distinct when every category
      carries only its declared columns, each once: within a category the
      prefix keeps them apart, across categories the declared lists are
      disjoint. */
  lemma {:induction false} MergedNamesDistinct(es: seq<Entry>)
    requires Distinct(Keys(es))
    requires forall k :: 0 <= k < |es| ==> DeclaresItsColumns(es[k])
    ensures Distinct(AllNames(Tables(NamespacedAll(es))))
    ensures forall x :: x in AllNames(Tables(NamespacedAll(es))) ==>
      exists k :: 0 <= k < |es| && es[k].endpoint in EndpointColumns && x in Declared(es[k].endpoint)
  {
    if es != [] {
      var ts := Tables(NamespacedAll(es));
      var rest := es[1..];
      assert ts[1..] == Tables(NamespacedAll(rest));
      DistinctTail(es);
      MergedNamesDistinct(rest);
      var e := es[0];
      NamespacedDeclared(e);
      var head := Names(ts[0]);
      var tail := AllNames(ts[1..]);
      forall x | x in tail
        ensures x !in head
        ensures exists k :: 0 <= k < |es| && es[k].endpoint in EndpointColumns && x in Declared(es[k].endpoint)
      {
        var k :| 0 <= k < |rest| && rest[k].endpoint in EndpointColumns && x in Declared(rest[k].endpoint);
        DeclaredDisjoint(e.endpoint, rest[k].endpoint);
        assert es[k + 1] == rest[k];
      }
      DistinctAppend(head, tail);
    }
  }

  /** The declared categories are the same seven names in all three
      places: `ENDPOINTS`, the keys of `ENDPOINT_COLUMNS` and the keys of
      `ENDPOINTS_PARAMS`. */
  lemma CatalogsAgree()
    ensures forall c :: c in Endpoints <==> c in EndpointColumns
    ensures forall c :: c in CategoryNames(EndpointsParams) <==> c in EndpointColumns
  {
    assert CategoryNames(EndpointsParams) == [
      "exchange-flows", "flow-indicator", "market-indicator", "network-indicator", "miner-flows",
      "market-data", "network-data"
    ];
  }

  // ---------------------------------------------------------------------------
  // DataPreprocessor
  // ---------------------------------------------------------------------------

  class DataPreprocessor {
    var symbol: string
    /** `raw_data_files`: the loaded tables, keyed by category. */
    var rawDataFiles: seq<Entry>
    /** `full_df`: the merged table. */
    var fullDf: Table

    /** Each category is loaded at most once, and every loaded table is
        well formed. */
    predicate Consistent()
      reads this
    {
      && symbol in Symbols
      && Distinct(Keys(rawDataFiles))
      && forall k :: 0 <= k < |rawDataFiles| ==> rawDataFiles[k].endpoint in Endpoints && Valid(rawDataFiles[k].table)
    }

    /** `__init__`: picks the symbol and loads its files; a file that cannot
        be read leaves the later categories out. What `_load_data` returns
        is dropped. */
    constructor(symbolArg: Option<string>, disk: string -> CsvRead)
      requires forall name :: disk(name).Read? ==> Valid(disk(name).table)
      ensures symbol == ChooseSymbol(symbolArg)
      ensures rawDataFiles == ReadEntries(symbol, disk, ReadCount(symbol, disk))
      ensures Keys(rawDataFiles) == Endpoints[..ReadCount(symbol, disk)]
      ensures fullDf == Empty
      ensures Consistent()
    {
      symbol := ChooseSymbol(symbolArg);
      rawDataFiles := [];
      fullDf := Empty;
      new;
      var dropped := LoadData(disk);
      LoadStored(symbol, disk, 0);
      LoadedConsistent(symbol, disk, ReadCount(symbol, disk));
    }

    /** `_load_data`: reads `new-{symbol}-{category}.csv` for each category in
        `ENDPOINTS` order and stores its table under the category; the first
        file that cannot be read ends the loop with a failure record. */
    method LoadData(disk: string -> CsvRead) returns (r: Option<Response<Table>>)
      modifies this
      ensures symbol == old(symbol) && fullDf == old(fullDf)
      ensures LoadRun(r, rawDataFiles) == LoadFrom(symbol, disk, old(rawDataFiles), 0)
      ensures r.None? <==> ReadCount(symbol, disk) == |Endpoints|
      ensures ReadCount(symbol, disk) < |Endpoints| ==>
        r == Some(Failure(NotFoundPrefix + disk(CsvName(symbol, Endpoints[ReadCount(symbol, disk)])).error))
    {
      for i := 0 to |Endpoints|
        invariant symbol == old(symbol) && fullDf == old(fullDf)
        invariant LoadFrom(symbol, disk, rawDataFiles, i) == LoadFrom(symbol, disk, old(rawDataFiles), 0)
      {
        var df := disk(CsvName(symbol, Endpoints[i]));
        if df.Unreadable? {
          r := Some(Failure(NotFoundPrefix + df.error));
          LoadFailure(symbol, disk, old(rawDataFiles), 0);
          return;
        }
        rawDataFiles := Put(rawDataFiles, Entry(Endpoints[i], df.table));
      }
      r := None;
      LoadFailure(symbol, disk, old(rawDataFiles), 0);
    }

    /** `merge_tables`: prefixes the columns of `miner-flows` and
        `exchange-flows` in the stored tables, then joins all stored tables
        column-wise; with no table stored the join raises. */
    method MergeTables() returns (raised: Option<Exception>)
      requires Consistent()
      modifies this
      ensures symbol == old(symbol)
      ensures rawDataFiles == NamespacedAll(old(rawDataFiles))
      ensures Consistent()
      ensures old(rawDataFiles) == [] ==> raised == Some(NoObjectsToConcatenate) && fullDf == old(fullDf)
      ensures old(rawDataFiles) != [] ==> raised.None? && fullDf == Merged(old(rawDataFiles))
    {
      for i := 0 to |rawDataFiles|
        invariant symbol == old(symbol) && fullDf == old(fullDf)
        invariant |rawDataFiles| == |old(rawDataFiles)|
        invariant forall k :: 0 <= k < i ==> rawDataFiles[k] == Namespaced(old(rawDataFiles)[k])
        invariant forall k :: i <= k < |rawDataFiles| ==> rawDataFiles[k] == old(rawDataFiles)[k]
      {
        var entry := rawDataFiles[i];
        if entry.endpoint == "miner-flows" {
          rawDataFiles := rawDataFiles[i := Entry(entry.endpoint, Renamed(entry.table, MinerPrefix))];
        } else if entry.endpoint == "exchange-flows" {
          rawDataFiles := rawDataFiles[i := Entry(entry.endpoint, Renamed(entry.table, ExchangePrefix))];
        }
      }
      assert rawDataFiles == NamespacedAll(old(rawDataFiles));
      KeepsConsistent(old(rawDataFiles), rawDataFiles);
      if rawDataFiles == [] {
        return Some(NoObjectsToConcatenate);
      }
      fullDf := Concat(Tables(rawDataFiles));
      raised := None;
    }
  }

  /** The rename keeps the keys and the tables' well-formedness. */
  lemma KeepsConsistent(es: seq<Entry>, renamed: seq<Entry>)
    requires renamed == NamespacedAll(es)
    ensures Keys(renamed) == Keys(es)
    ensures forall k :: 0 <= k < |es| ==> (Valid(renamed[k].table) <==> Valid(es[k].table))
  {
    forall k | 0 <= k < |es| ensures Valid(renamed[k].table) <==> Valid(es[k].table) {
      NamespacedTable(es[k]);
    }
  }
}
