/** The request side of the pipeline (src/api_integrator/cryptoquant_connector.py):
    the endpoint catalog, the request URL builder and the per-category fetch
    loop. The HTTP call itself is a parameter `respond` from the requested URL
    to its outcome, and the start time the builder reads from the clock is a
    parameter too. */
module Connector {
  import opened Responses
  import opened Frames

  const RootUrl: string := "https://api.datasource.cybotrade.rs/cryptoquant"
  const Limit: nat := 10000

  // ---------------------------------------------------------------------------
  // The catalog: category -> endpoint -> query parameters, in declaration order
  // ---------------------------------------------------------------------------

  datatype Param = Param(key: string, value: string)
  datatype EndpointSpec = EndpointSpec(name: string, params: seq<Param>)
  datatype CategorySpec = CategorySpec(name: string, endpoints: seq<EndpointSpec>)

  // The four parameters and the four parameter lists the catalog uses.
  const ExchangeParam: Param := Param("exchange", "all_exchange")
  const MinerParam: Param := Param("miner", "all_miner")
  const MarketParam: Param := Param("market", "spot")
  const WindowParam: Param := Param("window", "day")
  const AllExchangeDay: seq<Param> := [ExchangeParam, WindowParam]
  const AllMinerDay: seq<Param> := [MinerParam, WindowParam]
  const Day: seq<Param> := [WindowParam]
  const SpotAllExchangeDay: seq<Param> := [MarketParam, ExchangeParam, WindowParam]
  const ParamLists: seq<seq<Param>> := [AllExchangeDay, AllMinerDay, Day, SpotAllExchangeDay]

  const ExchangeFlows: seq<EndpointSpec> := [
    EndpointSpec("reserve", AllExchangeDay),
    EndpointSpec("netflow", AllExchangeDay),
    EndpointSpec("inflow", AllExchangeDay),
    EndpointSpec("outflow", AllExchangeDay),
    EndpointSpec("transactions-count", AllExchangeDay),
    EndpointSpec("addresses-count", AllExchangeDay)
  ]

  const FlowIndicator: seq<EndpointSpec> := [
    EndpointSpec("mpi", Day),
    EndpointSpec("exchange-whale-ratio", AllExchangeDay),
    EndpointSpec("exchange-supply-ratio", AllExchangeDay),
    EndpointSpec("miner-supply-ratio", AllMinerDay)
  ]

  const MarketIndicator: seq<EndpointSpec> := [
    EndpointSpec("estimated-leverage-ratio", AllExchangeDay),
    EndpointSpec("stablecoin-supply-ratio", Day),
    EndpointSpec("mvrv", Day),
    EndpointSpec("sopr", Day)
  ]

  const NetworkIndicator: seq<EndpointSpec> := [
    EndpointSpec("nvt", Day),
    EndpointSpec("nvt-golden-cross", Day),
    EndpointSpec("nvm", Day),
    EndpointSpec("puell-multiple", Day),
    EndpointSpec("nupl", Day),
    EndpointSpec("nrpl", Day)
  ]

  const MinerFlows: seq<EndpointSpec> := [
    EndpointSpec("reserve", AllMinerDay),
    EndpointSpec("netflow", AllMinerDay),
    EndpointSpec("inflow", AllMinerDay),
    EndpointSpec("outflow", AllMinerDay),
    EndpointSpec("transactions-count", AllMinerDay),
    EndpointSpec("addresses-count", AllMinerDay)
  ]

  const MarketData: seq<EndpointSpec> := [
    EndpointSpec("price-ohlcv", SpotAllExchangeDay),
    EndpointSpec("open-interest", AllExchangeDay),
    EndpointSpec("taker-buy-sell-stats", AllExchangeDay),
    EndpointSpec("liquidations", AllExchangeDay),
    EndpointSpec("coinbase-premium-index", Day)
  ]

  const NetworkData: seq<EndpointSpec> := [
    EndpointSpec("transactions-count", Day),
    EndpointSpec("addresses-count", Day),
    EndpointSpec("fees-transaction", Day),
    EndpointSpec("blockreward", Day),
    EndpointSpec("difficulty", Day)
  ]

  /** `ENDPOINTS_PARAMS`. Python dicts keep insertion order, which is the
      order the fetch loop requests endpoints and the URL builder appends
      parameters, so the catalog is a sequence. */
  const EndpointsParams: seq<CategorySpec> := [
    CategorySpec("exchange-flows", ExchangeFlows),
    CategorySpec("flow-indicator", FlowIndicator),
    CategorySpec("market-indicator", MarketIndicator),
    CategorySpec("network-indicator", NetworkIndicator),
    CategorySpec("miner-flows", MinerFlows),
    CategorySpec("market-data", MarketData),
    CategorySpec("network-data", NetworkData)
  ]

  function CategoryNames(cs: seq<CategorySpec>): (names: seq<string>)
    ensures |names| == |cs|
    ensures forall i :: 0 <= i < |cs| ==> names[i] == cs[i].name
  {
    seq(|cs|, i requires 0 <= i < |cs| => cs[i].name)
  }

  function EndpointNames(eps: seq<EndpointSpec>): (names: seq<string>)
    ensures |names| == |eps|
    ensures forall i :: 0 <= i < |eps| ==> names[i] == eps[i].name
  {
    seq(|eps|, i requires 0 <= i < |eps| => eps[i].name)
  }

  function ParamKeys(ps: seq<Param>): (keys: seq<string>)
    ensures |keys| == |ps|
    ensures forall i :: 0 <= i < |ps| ==> keys[i] == ps[i].key
  {
    seq(|ps|, i requires 0 <= i < |ps| => ps[i].key)
  }

  /** `ENDPOINTS_PARAMS[category]`, None where the key is missing. */
  function FindCategory(cs: seq<CategorySpec>, name: string): (r: Option<seq<EndpointSpec>>)
    ensures r.None? <==> name !in CategoryNames(cs)
    ensures r.Some? ==> exists i :: 0 <= i < |cs| && cs[i] == CategorySpec(name, r.value)
  {
    if cs == [] then None
    else if cs[0].name == name then Some(cs[0].endpoints)
    else
      var r := FindCategory(cs[1..], name);
      assert CategoryNames(cs) == [cs[0].name] + CategoryNames(cs[1..]);
      assert r.Some? ==> exists i :: 0 <= i < |cs| - 1 && cs[1..][i] == CategorySpec(name, r.value);
      r
  }

  /** `endpoints[name]`, None where the key is missing. */
  function FindEndpoint(eps: seq<EndpointSpec>, name: string): (r: Option<seq<Param>>)
    ensures r.None? <==> name !in EndpointNames(eps)
    ensures r.Some? ==> exists i :: 0 <= i < |eps| && eps[i] == EndpointSpec(name, r.value)
  {
    if eps == [] then None
    else if eps[0].name == name then Some(eps[0].params)
    else
      var r := FindEndpoint(eps[1..], name);
      assert EndpointNames(eps) == [eps[0].name] + EndpointNames(eps[1..]);
      assert r.Some? ==> exists i :: 0 <= i < |eps| - 1 && eps[1..][i] == EndpointSpec(name, r.value);
      r
  }

  /** `params[key]`, None where the key is missing. */
  function FindParam(ps: seq<Param>, key: string): (r: Option<string>)
    ensures r.None? <==> key !in ParamKeys(ps)
    ensures r.Some? ==> Param(key, r.value) in ps
  {
    if ps == [] then None
    else if ps[0].key == key then Some(ps[0].value)
    else
      var r := FindParam(ps[1..], key);
      assert ParamKeys(ps) == [ps[0].key] + ParamKeys(ps[1..]);
      r
  }

  /** `ENDPOINTS_PARAMS[category][endpoint]["window"]`, raising `KeyError`
      with the first key that misses. */
  function WindowOf(category: string, endpoint: string): (r: Result<string>)
    ensures category !in CategoryNames(EndpointsParams) ==> r == Err(KeyError(category))
    ensures (category in CategoryNames(EndpointsParams)
             && endpoint !in EndpointNames(FindCategory(EndpointsParams, category).value)) ==>
      r == Err(KeyError(endpoint))
    ensures r.Err? ==> r.exception in {KeyError(category), KeyError(endpoint), KeyError("window")}
    ensures r.Ok? ==>
      && category in CategoryNames(EndpointsParams)
      && endpoint in EndpointNames(FindCategory(EndpointsParams, category).value)
  {
    match FindCategory(EndpointsParams, category)
    case None => Err(KeyError(category))
    case Some(eps) =>
      match FindEndpoint(eps, endpoint)
      case None => Err(KeyError(endpoint))
      case Some(ps) =>
        match FindParam(ps, "window")
        case None => Err(KeyError("window"))
        case Some(w) => Ok(w)
  }

  // ---------------------------------------------------------------------------
  // Request URLs
  // ---------------------------------------------------------------------------

  function Digit(d: nat): char
    requires d < 10
  {
    "0123456789"[d]
  }

  predicate IsDigit(c: char) {
    '0' <= c <= '9'
  }

  /** Decimal rendering of a non-negative integer, as an f-string prints it. */
  function NatToString(n: nat): (s: string)
    ensures |s| > 0
    ensures forall i :: 0 <= i < |s| ==> IsDigit(s[i])
  {
    if n < 10 then [Digit(n)] else NatToString(n / 10) + [Digit(n % 10)]
  }

  function DigitValue(c: char): nat
    requires IsDigit(c)
  {
    (c as int - '0' as int) as nat
  }

  /** Reads a decimal rendering back: the inverse of `NatToString`. */
  function StringToNat(s: string): nat
    requires forall i :: 0 <= i < |s| ==> IsDigit(s[i])
  {
    if s == [] then 0 else StringToNat(s[..|s| - 1]) * 10 + DigitValue(s[|s| - 1])
  }

  /** The rendering of the start time and the limit in a URL can be read back. */
  lemma {:induction false} NatToStringRoundTrip(n: nat)
    ensures StringToNat(NatToString(n)) == n
  {
    var s := NatToString(n);
    if n >= 10 {
      NatToStringRoundTrip(n / 10);
      assert s[..|s| - 1] == NatToString(n / 10);
    }
  }

  function RenderPair(p: Param): string {
    p.key + "=" + p.value
  }

  /** `&key=value` for each pair, in order. */
  function Tail(ps: seq<Param>): string {
    if ps == [] then "" else "&" + RenderPair(ps[0]) + Tail(ps[1..])
  }

  /** The query string: the pairs rendered `key=value` and joined by `&`. */
  function Query(ps: seq<Param>): string {
    if ps == [] then "" else RenderPair(ps[0]) + Tail(ps[1..])
  }

  /** The pairs of every request: `start_time`, `limit`, then the endpoint's
      parameters in declaration order. */
  function QueryPairs(startTime: nat, params: seq<Param>): (ps: seq<Param>)
    ensures |ps| == 2 + |params|
    ensures ps[0].key == "start_time" && ps[1].key == "limit"
    ensures forall k :: 0 <= k < 2 ==> forall i :: 0 <= i < |ps[k].value| ==> IsDigit(ps[k].value[i])
    ensures StringToNat(ps[0].value) == startTime && StringToNat(ps[1].value) == Limit
    ensures ps[2..] == params
  {
    NatToStringRoundTrip(startTime);
    NatToStringRoundTrip(Limit);
    [Param("start_time", NatToString(startTime)), Param("limit", NatToString(Limit))] + params
  }

  function EndpointPath(symbol: string, category: string, endpoint: string): string {
    RootUrl + "/" + symbol + "/" + category + "/" + endpoint
  }

  /** The f-string `_parse_endpoint_url` starts from: the path, then
      `start_time` and `limit`. */
  function BaseUrl(symbol: string, category: string, endpoint: string, startTime: nat): string {
    EndpointPath(symbol, category, endpoint) + "?start_time=" + NatToString(startTime) + "&limit=" + NatToString(Limit)
  }

  /** `url` with `&key=value` appended for each pair, in order. */
  function Extend(url: string, ps: seq<Param>): string
    decreases |ps|
  {
    if ps == [] then url else Extend(url + "&" + ps[0].key + "=" + ps[0].value, ps[1..])
  }

  /** The request URL for one endpoint. */
  function EndpointUrl(symbol: string, category: string, endpoint: string, params: seq<Param>, startTime: nat): (url: string)
    ensures url == BaseUrl(symbol, category, endpoint, startTime) + Tail(params)
  {
    ExtendIsTail(BaseUrl(symbol, category, endpoint, startTime), params);
    Extend(BaseUrl(symbol, category, endpoint, startTime), params)
  }

  /** `_parse_endpoint_url`: the base URL with `start_time` and `limit`, then
      `&key=value` appended for each parameter in a loop. */
  method ParseEndpointUrl(symbol: string, category: string, endpoint: string, params: seq<Param>, startTime: nat)
    returns (url: string)
    ensures url == EndpointUrl(symbol, category, endpoint, params, startTime)
  {
    url := RootUrl + "/" + symbol + "/" + category + "/" + endpoint
      + "?start_time=" + NatToString(startTime) + "&limit=" + NatToString(Limit);
    for i := 0 to |params|
      invariant Extend(url, params[i..]) == EndpointUrl(symbol, category, endpoint, params, startTime)
    {
      assert params[i..][1..] == params[i + 1..];
      url := url + "&" + params[i].key + "=" + params[i].value;
    }
  }

  lemma Assoc<T>(a: seq<T>, b: seq<T>, c: seq<T>)
    ensures a + b + c == a + (b + c)
  {
  }

  /** Appending pairs one at a time renders them as the query tail. */
  lemma {:induction false} ExtendIsTail(url: string, ps: seq<Param>)
    ensures Extend(url, ps) == url + Tail(ps)
    decreases |ps|
  {
    if ps != [] {
      var next := url + "&" + ps[0].key + "=" + ps[0].value;
      ExtendIsTail(next, ps[1..]);
      assert next == url + ("&" + RenderPair(ps[0]));
    }
  }

  lemma {:induction false} TailAppend(a: seq<Param>, b: seq<Param>)
    ensures Tail(a + b) == Tail(a) + Tail(b)
  {
    if a != [] {
      assert (a + b)[0] == a[0] && (a + b)[1..] == a[1..] + b;
      TailAppend(a[1..], b);
      Assoc("&" + RenderPair(a[0]), Tail(a[1..]), Tail(b));
    } else {
      assert a + b == b;
    }
  }

  lemma QueryLiterals()
    ensures "?start_time=" == ['?'] + ("start_time" + "=")
    ensures "&limit=" == "&" + ("limit" + "=")
  {
  }

  /** The f-string is the path, `?`, and the query of `start_time` and
      `limit`. */
  lemma BaseIsPathAndHead(symbol: string, category: string, endpoint: string, startTime: nat)
    ensures var pairs := QueryPairs(startTime, []);
      BaseUrl(symbol, category, endpoint, startTime)
      == EndpointPath(symbol, category, endpoint) + ['?'] + (RenderPair(pairs[0]) + Tail([pairs[1]]))
  {
    var path := EndpointPath(symbol, category, endpoint);
    var d, l := NatToString(startTime), NatToString(Limit);
    var st, lim := Param("start_time", d), Param("limit", l);
    QueryLiterals();
    calc {
      BaseUrl(symbol, category, endpoint, startTime);
      path + "?start_time=" + d + "&limit=" + l;
      { Assoc(path + "?start_time=" + d, "&limit=", l); }
      path + "?start_time=" + d + ("&limit=" + l);
      { assert "&limit=" + l == "&" + RenderPair(lim) + Tail([]); }
      path + "?start_time=" + d + Tail([lim]);
      { Assoc(path, "?start_time=", d); }
      path + ("?start_time=" + d) + Tail([lim]);
      { assert "?start_time=" + d == ['?'] + RenderPair(st); }
      path + (['?'] + RenderPair(st)) + Tail([lim]);
      { Assoc(path, ['?'], RenderPair(st)); }
      path + ['?'] + RenderPair(st) + Tail([lim]);
      { Assoc(path + ['?'], RenderPair(st), Tail([lim])); }
      path + ['?'] + (RenderPair(st) + Tail([lim]));
    }
  }

  /** The URL is `ROOT_URL/symbol/category/endpoint`, `?`, and the query of
      `start_time`, `limit` and the endpoint's parameters in declaration
      order. */
  lemma UrlShape(symbol: string, category: string, endpoint: string, params: seq<Param>, startTime: nat)
    ensures EndpointUrl(symbol, category, endpoint, params, startTime)
         == EndpointPath(symbol, category, endpoint) + ['?'] + Query(QueryPairs(startTime, params))
  {
    var path := EndpointPath(symbol, category, endpoint);
    var pairs := QueryPairs(startTime, params);
    var head := QueryPairs(startTime, []);
    assert pairs == head + params && pairs[1..] == [head[1]] + params;
    BaseIsPathAndHead(symbol, category, endpoint, startTime);
    ExtendIsTail(BaseUrl(symbol, category, endpoint, startTime), params);
    TailAppend([head[1]], params);
    Assoc(path + ['?'], RenderPair(head[0]) + Tail([head[1]]), Tail(params));
    Assoc(RenderPair(head[0]), Tail([head[1]]), Tail(params));
  }

  // ---------------------------------------------------------------------------
  // Reading a URL back
  // ---------------------------------------------------------------------------

  /** `s.split(sep, 1)` when `sep` occurs: the text before its first
      occurrence and the text after it. */
  function SplitOnce(s: string, sep: char): (r: Option<(string, string)>)
    ensures r.None? <==> sep !in s
    ensures r.Some? ==> sep !in r.value.0 && s == r.value.0 + [sep] + r.value.1
  {
    if s == [] then None
    else if s[0] == sep then Some(([], s[1..]))
    else
      match SplitOnce(s[1..], sep)
      case None => None
      case Some(parts) => Some(([s[0]] + parts.0, parts.1))
  }

  /** `s.split(sep)`. */
  function SplitAll(s: string, sep: char): (parts: seq<string>)
    ensures |parts| > 0
    decreases |s|
  {
    match SplitOnce(s, sep)
    case None => [s]
    case Some(parts) => [parts.0] + SplitAll(parts.1, sep)
  }

  function ParsePair(segment: string): Option<Param> {
    match SplitOnce(segment, '=')
    case None => None
    case Some(kv) => Some(Param(kv.0, kv.1))
  }

  function ParseSegments(segments: seq<string>): Option<seq<Param>> {
    if segments == [] then Some([])
    else
      match (ParsePair(segments[0]), ParseSegments(segments[1..]))
      case (Some(p), Some(ps)) => Some([p] + ps)
      case _ => None
  }

  /** Reads a query string back into its `key=value` pairs: split on `&`,
      then each segment on its first `=`; None when a segment has no `=`. */
  function ParseQuery(query: string): Option<seq<Param>> {
    ParseSegments(SplitAll(query, '&'))
  }

  /** A pair that renders unambiguously: no `&` anywhere, no `=` in the key. */
  predicate CleanPair(p: Param) {
    '&' !in p.key && '&' !in p.value && '=' !in p.key
  }

  lemma {:induction false} SplitOnceAt(a: string, sep: char, b: string)
    requires sep !in a
    ensures SplitOnce(a + [sep] + b, sep) == Some((a, b))
  {
    if a != [] {
      assert (a + [sep] + b)[1..] == a[1..] + [sep] + b;
      SplitOnceAt(a[1..], sep, b);
      assert [a[0]] + a[1..] == a;
    }
  }

  /** Each pair rendered `key=value`, in order. */
  function RenderAll(ps: seq<Param>): (segments: seq<string>)
    ensures |segments| == |ps|
    ensures forall i :: 0 <= i < |ps| ==> segments[i] == RenderPair(ps[i])
  {
    if ps == [] then [] else [RenderPair(ps[0])] + RenderAll(ps[1..])
  }

  lemma {:induction false} SplitQuery(ps: seq<Param>)
    requires ps != []
    requires forall i :: 0 <= i < |ps| ==> CleanPair(ps[i])
    ensures SplitAll(Query(ps), '&') == RenderAll(ps)
  {
    var first := RenderPair(ps[0]);
    assert '&' !in first;
    if |ps| == 1 {
      assert ps[1..] == [];
      assert Query(ps) == first;
    } else {
      assert Query(ps) == first + "&" + Query(ps[1..]);
      assert Query(ps) == first + ['&'] + Query(ps[1..]);
      SplitOnceAt(first, '&', Query(ps[1..]));
      SplitQuery(ps[1..]);
    }
  }

  lemma {:induction false} ParseRendered(ps: seq<Param>)
    requires forall i :: 0 <= i < |ps| ==> CleanPair(ps[i])
    ensures ParseSegments(RenderAll(ps)) == Some(ps)
  {
    if ps != [] {
      assert RenderPair(ps[0]) == ps[0].key + ['='] + ps[0].value;
      SplitOnceAt(ps[0].key, '=', ps[0].value);
      ParseRendered(ps[1..]);
      assert [ps[0]] + ps[1..] == ps;
    }
  }

  /** Round trip of the query string: splitting on `&` and then each segment
      on its first `=` gives back exactly the pairs rendered, in order. */
  lemma QueryRoundTrip(ps: seq<Param>)
    requires ps != []
    requires forall i :: 0 <= i < |ps| ==> CleanPair(ps[i])
    ensures ParseQuery(Query(ps)) == Some(ps)
  {
    SplitQuery(ps);
    ParseRendered(ps);
  }

  lemma QueryPairsClean(startTime: nat, params: seq<Param>)
    requires forall i :: 0 <= i < |params| ==> CleanPair(params[i])
    ensures forall i :: 0 <= i < |QueryPairs(startTime, params)| ==> CleanPair(QueryPairs(startTime, params)[i])
  {
    var pairs := QueryPairs(startTime, params);
    forall i | 0 <= i < |pairs| ensures CleanPair(pairs[i]) {
      if i < 2 {
        var digits := pairs[i].value;
        assert forall j :: 0 <= j < |digits| ==> IsDigit(digits[j]);
      } else {
        assert pairs[i] == params[i - 2];
      }
    }
  }

  /** Every request URL is the endpoint's path, a `?`, and a query that
      reads back as the pairs `start_time`, `limit` and the declared
      parameters, in that order: `2 + |params|` pairs, `start_time` being
      the decimal rendering of the start time. */
  lemma UrlRoundTrip(symbol: string, category: string, endpoint: string, params: seq<Param>, startTime: nat)
    requires forall i :: 0 <= i < |params| ==> CleanPair(params[i])
    ensures var url := EndpointUrl(symbol, category, endpoint, params, startTime);
      var path := EndpointPath(symbol, category, endpoint);
      && |path| < |url|
      && url[..|path|] == path
      && url[|path|] == '?'
      && ParseQuery(url[|path| + 1..]) == Some(QueryPairs(startTime, params))
    ensures |QueryPairs(startTime, params)| == 2 + |params|
    ensures StringToNat(QueryPairs(startTime, params)[0].value) == startTime
  {
    var url := EndpointUrl(symbol, category, endpoint, params, startTime);
    var path := EndpointPath(symbol, category, endpoint);
    var pairs := QueryPairs(startTime, params);
    UrlShape(symbol, category, endpoint, params, startTime);
    assert url[|path| + 1..] == Query(pairs);
    QueryPairsClean(startTime, params);
    QueryRoundTrip(pairs);
    NatToStringRoundTrip(startTime);
  }

  /** Number of pairs with key `k`. */
  function KeyCount(ps: seq<Param>, k: string): nat {
    if ps == [] then 0 else (if ps[0].key == k then 1 else 0) + KeyCount(ps[1..], k)
  }

  lemma {:induction false} KeyCountOfDistinct(ps: seq<Param>, k: string)
    requires Distinct(ParamKeys(ps))
    ensures KeyCount(ps, k) == if k in ParamKeys(ps) then 1 else 0
  {
    if ps != [] {
      assert ParamKeys(ps) == [ps[0].key] + ParamKeys(ps[1..]);
      assert Distinct(ParamKeys(ps[1..])) by {
        forall i, j | 0 <= i < j < |ps| - 1 ensures ParamKeys(ps[1..])[i] != ParamKeys(ps[1..])[j] {
          assert ParamKeys(ps)[i + 1] != ParamKeys(ps)[j + 1];
        }
      }
      KeyCountOfDistinct(ps[1..], k);
    }
  }

  /** With distinct parameter keys other than `start_time` and `limit`, the
      query names `start_time`, `limit` and every declared parameter exactly
      once. */
  lemma QueryKeysOnce(startTime: nat, params: seq<Param>)
    requires Distinct(ParamKeys(params))
    requires "start_time" !in ParamKeys(params) && "limit" !in ParamKeys(params)
    ensures KeyCount(QueryPairs(startTime, params), "start_time") == 1
    ensures KeyCount(QueryPairs(startTime, params), "limit") == 1
    ensures forall i :: 0 <= i < |params| ==> KeyCount(QueryPairs(startTime, params), params[i].key) == 1
  {
    var pairs := QueryPairs(startTime, params);
    assert pairs[1..][1..] == params;
    KeyCountOfDistinct(params, "start_time");
    KeyCountOfDistinct(params, "limit");
    forall i | 0 <= i < |params| ensures KeyCount(pairs, params[i].key) == 1 {
      assert ParamKeys(params)[i] == params[i].key;
      KeyCountOfDistinct(params, params[i].key);
    }
  }

  // ---------------------------------------------------------------------------
  // Facts about the catalog
  // ---------------------------------------------------------------------------

  /** What the URL builder and the extractor need of one parameter list:
      distinct keys other than `start_time` and `limit`, pairs that render
      unambiguously, and `window: "day"`. */
  predicate ParamsWellFormed(ps: seq<Param>) {
    && Distinct(ParamKeys(ps))
    && "start_time" !in ParamKeys(ps)
    && "limit" !in ParamKeys(ps)
    && (forall p :: 0 <= p < |ps| ==> CleanPair(ps[p]))
    && FindParam(ps, "window") == Some("day")
  }

  // Each parameter list and each category of the catalog is well formed:
  // its keys are distinct, none is `start_time` or `limit`, every pair
  // renders unambiguously, and its window is `day`.

  lemma ParamsClean()
    ensures CleanPair(ExchangeParam) && CleanPair(MinerParam)
    ensures CleanPair(MarketParam) && CleanPair(WindowParam)
  {
    ExchangeParamClean();
    MinerParamClean();
    MarketParamClean();
    WindowParamClean();
  }

  lemma ExchangeParamClean() ensures CleanPair(ExchangeParam) {}
  lemma MinerParamClean() ensures CleanPair(MinerParam) {}
  lemma MarketParamClean() ensures CleanPair(MarketParam) {}
  lemma WindowParamClean() ensures CleanPair(WindowParam) {}

  lemma AllExchangeDayWellFormed()
    ensures ParamsWellFormed(AllExchangeDay)
  {
    assert Distinct(ParamKeys(AllExchangeDay));
    assert "start_time" !in ParamKeys(AllExchangeDay) && "limit" !in ParamKeys(AllExchangeDay);
    ParamsClean();
    assert FindParam(AllExchangeDay, "window") == Some("day");
  }

  lemma AllMinerDayWellFormed()
    ensures ParamsWellFormed(AllMinerDay)
  {
    assert Distinct(ParamKeys(AllMinerDay));
    assert "start_time" !in ParamKeys(AllMinerDay) && "limit" !in ParamKeys(AllMinerDay);
    ParamsClean();
    assert FindParam(AllMinerDay, "window") == Some("day");
  }

  lemma DayWellFormed()
    ensures ParamsWellFormed(Day)
  {
    assert Distinct(ParamKeys(Day));
    assert "start_time" !in ParamKeys(Day) && "limit" !in ParamKeys(Day);
    ParamsClean();
    assert FindParam(Day, "window") == Some("day");
  }

  lemma SpotAllExchangeDayWellFormed()
    ensures ParamsWellFormed(SpotAllExchangeDay)
  {
    assert Distinct(ParamKeys(SpotAllExchangeDay));
    assert "start_time" !in ParamKeys(SpotAllExchangeDay) && "limit" !in ParamKeys(SpotAllExchangeDay);
    ParamsClean();
    assert SpotAllExchangeDay[1..] == AllExchangeDay;
    AllExchangeDayWellFormed();
    assert SpotAllExchangeDay[0].key != "window";
    assert FindParam(SpotAllExchangeDay, "window") == Some("day");
  }

  lemma ParamListsWellFormed()
    ensures forall k :: 0 <= k < |ParamLists| ==> ParamsWellFormed(ParamLists[k])
  {
    AllExchangeDayWellFormed();
    AllMinerDayWellFormed();
    DayWellFormed();
    SpotAllExchangeDayWellFormed();
  }

  /** One category's endpoints: distinct names, each with one of the four
      parameter lists. */
  predicate EndpointsWellFormed(eps: seq<EndpointSpec>) {
    && Distinct(EndpointNames(eps))
    && forall e :: 0 <= e < |eps| ==> eps[e].params in ParamLists
  }

  lemma ExchangeFlowsNamesDistinct()
    ensures Distinct(EndpointNames(ExchangeFlows))
  {
  }

  lemma ExchangeFlowsParamsListed()
    ensures forall e :: 0 <= e < |ExchangeFlows| ==> ExchangeFlows[e].params in ParamLists
  {
  }

  lemma ExchangeFlowsWellFormed()
    ensures EndpointsWellFormed(ExchangeFlows)
  {
    ExchangeFlowsNamesDistinct();
    ExchangeFlowsParamsListed();
  }

  lemma FlowIndicatorNamesDistinct()
    ensures Distinct(EndpointNames(FlowIndicator))
  {
  }

  lemma FlowIndicatorParamsListed()
    ensures forall e :: 0 <= e < |FlowIndicator| ==> FlowIndicator[e].params in ParamLists
  {
  }

  lemma FlowIndicatorWellFormed()
    ensures EndpointsWellFormed(FlowIndicator)
  {
    FlowIndicatorNamesDistinct();
    FlowIndicatorParamsListed();
  }

  lemma MarketIndicatorNamesDistinct()
    ensures Distinct(EndpointNames(MarketIndicator))
  {
  }

  lemma MarketIndicatorParamsListed()
    ensures forall e :: 0 <= e < |MarketIndicator| ==> MarketIndicator[e].params in ParamLists
  {
  }

  lemma MarketIndicatorWellFormed()
    ensures EndpointsWellFormed(MarketIndicator)
  {
    MarketIndicatorNamesDistinct();
    MarketIndicatorParamsListed();
  }

  lemma NetworkIndicatorNamesDistinct()
    ensures Distinct(EndpointNames(NetworkIndicator))
  {
  }

  lemma NetworkIndicatorParamsListed()
    ensures forall e :: 0 <= e < |NetworkIndicator| ==> NetworkIndicator[e].params in ParamLists
  {
  }

  lemma NetworkIndicatorWellFormed()
    ensures EndpointsWellFormed(NetworkIndicator)
  {
    NetworkIndicatorNamesDistinct();
    NetworkIndicatorParamsListed();
  }

  lemma MinerFlowsNamesDistinct()
    ensures Distinct(EndpointNames(MinerFlows))
  {
  }

  lemma MinerFlowsParamsListed()
    ensures forall e :: 0 <= e < |MinerFlows| ==> MinerFlows[e].params in ParamLists
  {
  }

  lemma MinerFlowsWellFormed()
    ensures EndpointsWellFormed(MinerFlows)
  {
    MinerFlowsNamesDistinct();
    MinerFlowsParamsListed();
  }

  lemma MarketDataNamesDistinct()
    ensures Distinct(EndpointNames(MarketData))
  {
  }

  lemma MarketDataParamsListed()
    ensures forall e :: 0 <= e < |MarketData| ==> MarketData[e].params in ParamLists
  {
  }

  lemma MarketDataWellFormed()
    ensures EndpointsWellFormed(MarketData)
  {
    MarketDataNamesDistinct();
    MarketDataParamsListed();
  }

  lemma NetworkDataNamesDistinct()
    ensures Distinct(EndpointNames(NetworkData))
  {
  }

  lemma NetworkDataParamsListed()
    ensures forall e :: 0 <= e < |NetworkData| ==> NetworkData[e].params in ParamLists
  {
  }

  lemma NetworkDataWellFormed()
    ensures EndpointsWellFormed(NetworkData)
  {
    NetworkDataNamesDistinct();
    NetworkDataParamsListed();
  }

  lemma CategoryNamesDistinct()
    ensures Distinct(CategoryNames(EndpointsParams))
  {
  }

  lemma CategoriesWellFormed()
    ensures Distinct(CategoryNames(EndpointsParams))
    ensures forall c :: 0 <= c < |EndpointsParams| ==> EndpointsWellFormed(EndpointsParams[c].endpoints)
  {
    CategoryNamesDistinct();
    forall c | 0 <= c < |EndpointsParams| ensures EndpointsWellFormed(EndpointsParams[c].endpoints) {
      if c == 0 { ExchangeFlowsWellFormed(); }
      else if c == 1 { FlowIndicatorWellFormed(); }
      else if c == 2 { MarketIndicatorWellFormed(); }
      else if c == 3 { NetworkIndicatorWellFormed(); }
      else if c == 4 { MinerFlowsWellFormed(); }
      else if c == 5 { MarketDataWellFormed(); }
      else { NetworkDataWellFormed(); }
    }
  }

  /** The catalog is well-formed: distinct category names, distinct
      endpoint names in each category, and every endpoint's parameters
      satisfy `ParamsWellFormed`. */
  lemma CatalogWellFormed()
    ensures Distinct(CategoryNames(EndpointsParams))
    ensures forall c, e :: 0 <= c < |EndpointsParams| && 0 <= e < |EndpointsParams[c].endpoints| ==>
      ParamsWellFormed(EndpointsParams[c].endpoints[e].params)
    ensures forall c :: 0 <= c < |EndpointsParams| ==> Distinct(EndpointNames(EndpointsParams[c].endpoints))
  {
    CategoriesWellFormed();
    ParamListsWellFormed();
  }

  /** Every endpoint of the catalog declares `window: "day"`, so the extractor
      always takes its `date` -> `datetime` branch. */
  lemma AllWindowsAreDays(category: string, endpoint: string)
    requires FindCategory(EndpointsParams, category).Some?
    requires endpoint in EndpointNames(FindCategory(EndpointsParams, category).value)
    ensures WindowOf(category, endpoint) == Ok("day")
  {
    CatalogWellFormed();
    var eps := FindCategory(EndpointsParams, category).value;
    var ps := FindEndpoint(eps, endpoint).value;
    var c :| 0 <= c < |EndpointsParams| && EndpointsParams[c] == CategorySpec(category, eps);
    var e :| 0 <= e < |eps| && eps[e] == EndpointSpec(endpoint, ps);
    assert ParamsWellFormed(EndpointsParams[c].endpoints[e].params);
  }

  /** A request URL for parameters the catalog could declare is its path, a
      `?` and a query that reads back as `start_time`, `limit` and the
      parameters, each key once. */
  lemma WellFormedUrlRoundTrip(symbol: string, category: string, endpoint: string, params: seq<Param>, startTime: nat)
    requires ParamsWellFormed(params)
    ensures
      var pairs := QueryPairs(startTime, params);
      var url := EndpointUrl(symbol, category, endpoint, params, startTime);
      var path := EndpointPath(symbol, category, endpoint);
      && |path| < |url|
      && url[..|path|] == path
      && ParseQuery(url[|path| + 1..]) == Some(pairs)
      && KeyCount(pairs, "start_time") == 1
      && KeyCount(pairs, "limit") == 1
      && forall i :: 0 <= i < |params| ==> KeyCount(pairs, params[i].key) == 1
  {
    UrlRoundTrip(symbol, category, endpoint, params, startTime);
    QueryKeysOnce(startTime, params);
  }

  /** Every endpoint of the catalog declares parameters that satisfy
      `ParamsWellFormed`, so `WellFormedUrlRoundTrip` applies to every
      request the fetch loop builds. */
  lemma CatalogParamsWellFormed(c: nat, e: nat)
    requires c < |EndpointsParams| && e < |EndpointsParams[c].endpoints|
    ensures ParamsWellFormed(EndpointsParams[c].endpoints[e].params)
  {
    CatalogWellFormed();
  }

  // ---------------------------------------------------------------------------
  // Fetching a category
  // ---------------------------------------------------------------------------

  /** The `requests` exception classes `fetch_data` catches, in the order of
      its `except` clauses. */
  datatype RequestError = HttpError | ConnectionError | Timeout | JsonDecodeError | OtherRequestError

  /** What one request yields: the decoded `"data"` member (None for JSON
      null), or the exception raised, with its text. */
  datatype HttpOutcome = Received(data: Option<seq<Record>>) | RequestFailed(error: RequestError, detail: string)

  /** One entry of the fetched list: `{"endpoint": ..., "data": ...}`. */
  datatype EndpointData = EndpointData(endpoint: string, data: seq<Record>)

  const InvalidCategoryMessage: string := "The API call does not fall belong a valid category"
  const EmptyDataMessage: string :=
    "Failed to retrieve data. " + "The data is empty. " + "Please check the endpoint URL."

  /** The test `data is None or []`: the literal `[]` is falsy, so it is true
      exactly when the data is None; an empty list passes. */
  predicate Accepted(o: HttpOutcome)
    ensures o == Received(Some([])) ==> Accepted(o)
    ensures o.Received? && o.data.Some? ==> Accepted(o)
    ensures o == Received(None) ==> !Accepted(o)
    ensures o.RequestFailed? ==> !Accepted(o)
  {
    o.Received? && o.data.Some?
  }

  /** The text each `except` clause puts in front of the exception. */
  function ErrorPrefix(e: RequestError): string {
    match e
    case HttpError => "HTTP Error occurred: "
    case ConnectionError => "Connection Error occurred: "
    case Timeout => "Connection Timeout: "
    case JsonDecodeError => "Error while parsing JSON: "
    case OtherRequestError => "Error occurred: "
  }

  /** The message of the failure record a rejected request returns: the
      empty-data message, or the clause's text followed by the exception's. */
  function FailureMessage(o: HttpOutcome): (m: string)
    ensures o.Received? ==> m == EmptyDataMessage
    ensures o.RequestFailed? ==> |o.detail| < |m| && m[|m| - |o.detail|..] == o.detail
  {
    match o
    case Received(_) => EmptyDataMessage
    case RequestFailed(e, d) => ErrorPrefix(e) + d
  }

  /** Reads a failure message back: the empty-data message stands for a
      `None` data member; any other message names its `except` clause by
      its first letter (and the 12th or 7th where two clauses share it),
      and the exception's text follows the clause's text. */
  function ParseFailure(m: string): HttpOutcome {
    if |m| < 12 || m[0] == 'F' then Received(None)
    else
      var e :=
        if m[0] == 'H' then HttpError
        else if m[0] == 'C' then (if m[11] == 'E' then ConnectionError else Timeout)
        else if m[6] == 'w' then JsonDecodeError
        else OtherRequestError;
      if |ErrorPrefix(e)| <= |m| then RequestFailed(e, m[|ErrorPrefix(e)|..]) else Received(None)
  }

  /** The message tells what went wrong: every rejected request's message
      reads back as that request's outcome, so two rejections give the same
      message only when they failed the same way with the same text. */
  lemma FailureMessageRoundTrip(o: HttpOutcome)
    requires !Accepted(o)
    ensures ParseFailure(FailureMessage(o)) == o
  {
    if o.RequestFailed? {
      var m, p := FailureMessage(o), ErrorPrefix(o.error);
      assert m == p + o.detail && 12 <= |p|;
      assert m[0] == p[0] && m[6] == p[6] && m[11] == p[11];
      assert m[|p|..] == o.detail;
      match o.error {
        case HttpError => assert p[0] == 'H';
        case ConnectionError => assert p[0] == 'C' && p[11] == 'E';
        case Timeout => assert p[0] == 'C' && p[11] == 'T';
        case JsonDecodeError => assert p[0] == 'E' && p[6] == 'w';
        case OtherRequestError => assert p[0] == 'E' && p[6] == 'o';
      }
    } else {
      assert EmptyDataMessage[0] == 'F';
    }
  }


  /** The URLs of a category's endpoints, in declaration order. */
  function Urls(symbol: string, category: string, eps: seq<EndpointSpec>, startTime: nat): (urls: seq<string>)
    ensures |urls| == |eps|
    ensures forall i :: 0 <= i < |eps| ==> urls[i] == EndpointUrl(symbol, category, eps[i].name, eps[i].params, startTime)
  {
    seq(|eps|, i requires 0 <= i < |eps| => EndpointUrl(symbol, category, eps[i].name, eps[i].params, startTime))
  }

  /** The request for every endpoint of `eps` was accepted. */
  predicate AllAccepted(urls: seq<string>, respond: string -> HttpOutcome) {
    forall i :: 0 <= i < |urls| ==> Accepted(respond(urls[i]))
  }

  /** `responses` pairs each endpoint of `eps` with the data its request returned. */
  predicate Collected(responses: seq<EndpointData>, eps: seq<EndpointSpec>, urls: seq<string>, respond: string -> HttpOutcome)
    requires |urls| == |eps|
  {
    && |responses| == |eps|
    && forall i :: 0 <= i < |eps| ==>
         Accepted(respond(urls[i])) && responses[i] == EndpointData(eps[i].name, respond(urls[i]).data.value)
  }

  /** The outcome of requesting `urls` in order and stopping at the first
      request that is not accepted. */
  predicate FetchedAll(r: Response<seq<EndpointData>>, requested: seq<string>,
                       eps: seq<EndpointSpec>, urls: seq<string>, respond: string -> HttpOutcome)
    requires |urls| == |eps|
  {
    && (r.isSuccess <==> AllAccepted(urls, respond))
    && (r.isSuccess ==>
          r.message.None? && requested == urls && r.data.Some? && Collected(r.data.value, eps, urls, respond))
    && (!r.isSuccess ==>
          exists k :: 0 <= k < |eps|
            && AllAccepted(urls[..k], respond)
            && !Accepted(respond(urls[k]))
            && requested == urls[..k + 1]
            && r == Failure(FailureMessage(respond(urls[k]))))
  }

  lemma StoppedAt(r: Response<seq<EndpointData>>, requested: seq<string>,
                  eps: seq<EndpointSpec>, urls: seq<string>, respond: string -> HttpOutcome, k: nat)
    requires |urls| == |eps| && k < |eps|
    requires AllAccepted(urls[..k], respond) && !Accepted(respond(urls[k]))
    requires requested == urls[..k + 1] && r == Failure(FailureMessage(respond(urls[k])))
    ensures FetchedAll(r, requested, eps, urls, respond)
  {
  }

  lemma CompletedAll(responses: seq<EndpointData>, eps: seq<EndpointSpec>, urls: seq<string>, respond: string -> HttpOutcome)
    requires |urls| == |eps|
    requires AllAccepted(urls, respond) && Collected(responses, eps, urls, respond)
    ensures FetchedAll(Response(true, None, Some(responses)), urls, eps, urls, respond)
  {
  }

  /** `data is None or []` lets an empty list through: when every endpoint
      answers with an empty list, the fetch succeeds and collects an empty
      list for each endpoint, in order. */
  lemma EmptyDataCollected(r: Response<seq<EndpointData>>, requested: seq<string>,
                           eps: seq<EndpointSpec>, urls: seq<string>, respond: string -> HttpOutcome)
    requires |urls| == |eps|
    requires forall i :: 0 <= i < |urls| ==> respond(urls[i]) == Received(Some([]))
    requires FetchedAll(r, requested, eps, urls, respond)
    ensures r.isSuccess && r.message.None? && requested == urls
    ensures r.data.Some? && |r.data.value| == |eps|
    ensures forall i :: 0 <= i < |eps| ==> r.data.value[i] == EndpointData(eps[i].name, [])
  {
  }

  /** The loop of `fetch_data` over one category's endpoints. */
  method FetchEndpoints(symbol: string, category: string, eps: seq<EndpointSpec>, startTime: nat, respond: string -> HttpOutcome)
    returns (r: Response<seq<EndpointData>>, requested: seq<string>)
    ensures FetchedAll(r, requested, eps, Urls(symbol, category, eps, startTime), respond)
  {
    requested := [];
    ghost var urls := Urls(symbol, category, eps, startTime);
    var responses: seq<EndpointData> := [];
    for i := 0 to |eps|
      invariant requested == urls[..i]
      invariant AllAccepted(urls[..i], respond)
      invariant Collected(responses, eps[..i], urls[..i], respond)
    {
      var url := ParseEndpointUrl(symbol, category, eps[i].name, eps[i].params, startTime);
      requested := requested + [url];
      assert urls[..i + 1] == urls[..i] + [urls[i]];
      var outcome := respond(url);
      if !Accepted(outcome) {
        r := Failure(FailureMessage(outcome));
        StoppedAt(r, requested, eps, urls, respond, i);
        return;
      }
      responses := responses + [EndpointData(eps[i].name, outcome.data.value)];
      assert eps[..i + 1] == eps[..i] + [eps[i]];
    }
    assert urls[..|eps|] == urls && eps[..|eps|] == eps;
    CompletedAll(responses, eps, urls, respond);
    r := Response(true, None, Some(responses));
  }

  /** `fetch_data`: a category outside the catalog fails at once; otherwise
      every endpoint of the category is requested in declaration order and
      `{endpoint, data}` collected, the first rejected or failed request
      ending the fetch with a failure and no data. `requested` lists the
      URLs requested, in order. */
  method FetchData(symbol: string, category: string, startTime: nat, respond: string -> HttpOutcome)
    returns (r: Response<seq<EndpointData>>, requested: seq<string>)
    ensures FindCategory(EndpointsParams, category).None? ==>
      r == Failure(InvalidCategoryMessage) && requested == []
    ensures FindCategory(EndpointsParams, category).Some? ==>
      var eps := FindCategory(EndpointsParams, category).value;
      FetchedAll(r, requested, eps, Urls(symbol, category, eps, startTime), respond)
  {
    var found := FindCategory(EndpointsParams, category);
    if found.None? {
      return Failure(InvalidCategoryMessage), [];
    }
    r, requested := FetchEndpoints(symbol, category, found.value, startTime, respond);
  }
}
