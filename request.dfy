/** What Client::execute() hands to cURL: the option array built from the
    client's options and the call's url, httpMethod, parameters and headers, with
    formatQuery() for array parameters. */
module Request {
  import opened Results
  import opened PhpStrings
  import opened PhpArrays
  import opened Options

  // The libcurl option numbers execute() sets.
  const CURLOPT_HEADER: int := 42
  const CURLOPT_RETURNTRANSFER: int := 19913
  const CURLOPT_USERAGENT: int := 10018
  const CURLOPT_USERPWD: int := 10005
  const CURLOPT_HTTPHEADER: int := 10023
  const CURLOPT_POST: int := 47
  const CURLOPT_POSTFIELDS: int := 10015
  const CURLOPT_CUSTOMREQUEST: int := 10036
  const CURLOPT_URL: int := 10002

  /** The call's parameters: an array merged with the default parameters, or
      anything else, which is cast to a string and sent verbatim. */
  datatype Parameters = Fields(fields: Dict<string, string>) | Encoded(text: string)

  // ---------------------------------------------------------------------------
  // formatQuery()

  /** urlencode($key) . '=' . urlencode($value). */
  function Pair(k: string, v: string): string {
    UrlEncode(k) + "=" + UrlEncode(v)
  }

  /** The pairs of d in order, joined by '&': empty exactly for no pairs, and
      otherwise starting with the first pair. */
  function Query(d: Dict<string, string>): (r: string)
    ensures r == "" <==> d == []
    ensures d != [] ==> Pair(d[0].0, d[0].1) <= r
    decreases |d|
  {
    if d == [] then ""
    else if |d| == 1 then Pair(d[0].0, d[0].1)
    else Pair(d[0].0, d[0].1) + "&" + Query(d[1..])
  }

  /** What formatQuery()'s loop has accumulated after the pairs of d: every
      pair followed by '&'. */
  function Accumulated(d: Dict<string, string>): string
    decreases |d|
  {
    if d == [] then "" else Accumulated(d[..|d| - 1]) + Pair(d[|d| - 1].0, d[|d| - 1].1) + "&"
  }

  /** Query() of one more pair. */
  lemma {:induction false} QuerySnoc(d: Dict<string, string>, k: string, v: string)
    requires d != []
    ensures Query(d + [(k, v)]) == Query(d) + "&" + Pair(k, v)
    decreases |d|
  {
    var e := d + [(k, v)];
    var head := Pair(d[0].0, d[0].1);
    assert e[0] == d[0];
    if |d| == 1 {
      assert e[1..] == [(k, v)];
      assert Query(e) == head + "&" + Query(e[1..]);
      assert Query(d) == head;
    } else {
      assert e[1..] == d[1..] + [(k, v)];
      QuerySnoc(d[1..], k, v);
      var rest := Query(d[1..]);
      assert Query(e) == head + "&" + (rest + "&" + Pair(k, v));
      assert Query(d) == head + "&" + rest;
      assert head + "&" + (rest + "&" + Pair(k, v)) == (head + "&" + rest) + "&" + Pair(k, v);
    }
  }

  /** The accumulated text is the joined query with one '&' after it. */
  lemma {:induction false} AccumulatedIsQuery(d: Dict<string, string>)
    requires d != []
    ensures Accumulated(d) == Query(d) + "&"
    decreases |d|
  {
    var n := |d| - 1;
    if n == 0 {
      assert Accumulated(d[..0]) == "";
    } else {
      AccumulatedIsQuery(d[..n]);
      QuerySnoc(d[..n], d[n].0, d[n].1);
      assert d[..n] + [(d[n].0, d[n].1)] == d;
    }
  }

  /** No pair ends with '&': a key or value encodes without '&' and the pair
      ends in '=' or in the encoded value. */
  lemma PairEndsWell(k: string, v: string)
    ensures |Pair(k, v)| > 0 && Pair(k, v)[|Pair(k, v)| - 1] != '&'
  {
    UrlEncodeHasNoSeparators(v);
    var p := Pair(k, v);
    if |UrlEncode(v)| > 0 {
      assert p[|p| - 1] == UrlEncode(v)[|UrlEncode(v)| - 1];
    }
  }

  lemma {:induction false} QueryEndsWell(d: Dict<string, string>)
    requires d != []
    ensures |Query(d)| > 0 && Query(d)[|Query(d)| - 1] != '&'
    decreases |d|
  {
    if |d| == 1 {
      PairEndsWell(d[0].0, d[0].1);
    } else {
      QueryEndsWell(d[1..]);
      var q := Query(d[1..]);
      assert Query(d)[|Query(d)| - 1] == q[|q| - 1];
    }
  }

  /** rtrim($query, '&') removes exactly the '&' after the last pair, so
      formatQuery() yields the pairs joined by '&', and "" for no pairs. */
  lemma FormatQueryResult(d: Dict<string, string>)
    ensures RTrimChar(Accumulated(d), '&') == Query(d)
  {
    if d != [] {
      AccumulatedIsQuery(d);
      QueryEndsWell(d);
      var q := Query(d);
      var a := q + "&";
      var e := TrailingRun(a, '&', |a|);
      assert e == |q| by {
        assert TrailingRun(a, '&', |a|) == TrailingRun(a, '&', |q|);
        assert a[|q| - 1] == q[|q| - 1];
      }
      assert a[..|q|] == q;
    }
  }

  // ---------------------------------------------------------------------------
  // Reading a query string back: split on '&', split each pair at its first
  // '=', urldecode both halves (what a receiving parse_str does for plain keys).

  /** The pieces of s between occurrences of c. */
  function SplitAll(s: string, c: char): seq<string>
    decreases |s|
  {
    match StrPos(s, c)
    case None => [s]
    case Some(i) => [s[..i]] + SplitAll(s[i + 1..], c)
  }

  function DecodePair(p: string): (string, string) {
    match StrPos(p, '=')
    case None => (UrlDecode(p), "")
    case Some(i) => (UrlDecode(p[..i]), UrlDecode(p[i + 1..]))
  }

  function DecodePairs(ps: seq<string>): Dict<string, string>
    decreases |ps|
  {
    if ps == [] then [] else [DecodePair(ps[0])] + DecodePairs(ps[1..])
  }

  function ParseQuery(q: string): Dict<string, string> {
    if q == "" then [] else DecodePairs(SplitAll(q, '&'))
  }

  /** The first c of a + [c] + b is the one after a when a has none. */
  lemma StrPosAfter(a: string, c: char, b: string)
    requires c !in a
    ensures StrPos(a + [c] + b, c) == Some(|a|)
  {
    var s := a + [c] + b;
    assert s[|a|] == c;
    assert forall j :: 0 <= j < |a| ==> s[j] == a[j];
  }

  /** Splitting at a first separator. */
  lemma SplitAllCons(a: string, c: char, b: string)
    requires c !in a
    ensures SplitAll(a + [c] + b, c) == [a] + SplitAll(b, c)
  {
    var s := a + [c] + b;
    StrPosAfter(a, c, b);
    assert s[..|a|] == a && s[|a| + 1..] == b;
  }

  /** A pair decodes back to its key and value. */
  lemma DecodePairOfPair(k: string, v: string)
    requires IsByteString(k) && IsByteString(v)
    ensures DecodePair(Pair(k, v)) == (k, v)
  {
    var ek, ev := UrlEncode(k), UrlEncode(v);
    UrlEncodeHasNoSeparators(k);
    StrPosAfter(ek, '=', ev);
    assert Pair(k, v) == ek + ['='] + ev;
    var p := Pair(k, v);
    assert p[..|ek|] == ek && p[|ek| + 1..] == ev;
    UrlDecodeEncode(k);
    UrlDecodeEncode(v);
  }

  predicate ByteFields(d: Dict<string, string>) {
    forall i :: 0 <= i < |d| ==> IsByteString(d[i].0) && IsByteString(d[i].1)
  }

  /** The encoded pairs of d, in order. */
  function Pairs(d: Dict<string, string>): seq<string>
    decreases |d|
  {
    if d == [] then [] else [Pair(d[0].0, d[0].1)] + Pairs(d[1..])
  }

  /** The query string is made of the pairs, one per '&'-separated piece. */
  lemma {:induction false} QuerySplits(d: Dict<string, string>)
    requires d != []
    ensures SplitAll(Query(d), '&') == Pairs(d)
    decreases |d|
  {
    var p := Pair(d[0].0, d[0].1);
    UrlEncodeHasNoSeparators(d[0].0);
    UrlEncodeHasNoSeparators(d[0].1);
    assert '&' !in p;
    if |d| == 1 {
      assert SplitAll(p, '&') == [p];
      assert Pairs(d) == [p] + Pairs(d[1..]);
    } else {
      var rest := Query(d[1..]);
      QuerySplits(d[1..]);
      SplitAllCons(p, '&', rest);
      assert Query(d) == p + ['&'] + rest;
    }
  }

  lemma {:induction false} DecodePairsOfPairs(d: Dict<string, string>)
    requires ByteFields(d)
    ensures DecodePairs(Pairs(d)) == d
    decreases |d|
  {
    if d != [] {
      DecodePairOfPair(d[0].0, d[0].1);
      assert ByteFields(d[1..]) by {
        forall i | 0 <= i < |d[1..]| ensures IsByteString(d[1..][i].0) && IsByteString(d[1..][i].1) {
          assert d[1..][i] == d[i + 1];
        }
      }
      DecodePairsOfPairs(d[1..]);
      var ps := Pairs(d);
      assert ps[0] == Pair(d[0].0, d[0].1) && ps[1..] == Pairs(d[1..]);
      assert d == [d[0]] + d[1..];
    }
  }

  /** Decoding formatQuery()'s output gives back the parameters, in order,
      whenever keys and values are byte strings. */
  lemma QueryRoundTrip(d: Dict<string, string>)
    requires ByteFields(d)
    ensures ParseQuery(Query(d)) == d
  {
    if d != [] {
      QuerySplits(d);
      QueryEndsWell(d);
      DecodePairsOfPairs(d);
    }
  }

  // ---------------------------------------------------------------------------
  // The pieces of execute()

  /** The parameter string: formatQuery(array_merge(defaults, call)) for an
      array, the string itself otherwise. */
  function ParameterString(o: Options, params: Parameters): string {
    match params
    case Fields(f) => Query(Overlay(o.parameters, f))
    case Encoded(t) => t
  }

  /** '.' . $options['format'] when a format is set. */
  function FormatSuffix(o: Options): string {
    if TruthyOpt(o.format) then "." + o.format.value else ""
  }

  /** strpos($url, '?') ? '&' : '?' -- a '?' at position 0 counts as none. */
  function QuerySeparator(url: string): string {
    match StrPos(url, '?')
    case Some(i) => if i > 0 then "&" else "?"
    case None => "?"
  }

  /** $requestUrl before the base URL: url, then the format suffix, then for a
      GET with a non-empty parameter string the separator and the parameters. */
  function RequestPath(o: Options, url: string, httpMethod: string, p: string): string {
    url + FormatSuffix(o) +
    (if Upper(httpMethod) == "GET" && Truthy(p) then QuerySeparator(url) + p else "")
  }

  /** Joining with base_url: a '/' is put between them only when the path does
      not start with '/' and the base does not end with '/'. */
  function WithBase(o: Options, path: string): string {
    if TruthyOpt(o.baseUrl) then
      var b := o.baseUrl.value;
      if (path == [] || path[0] != '/') && b[|b| - 1] != '/' then b + "/" + path else b + path
    else path
  }

  /** sprintf("%s:%s", $key, $value) for every header, in order. */
  function HeaderLines(d: Dict<string, string>): seq<string> {
    seq(|d|, i requires 0 <= i < |d| => d[i].0 + ":" + d[i].1)
  }

  predicate HasCredentials(o: Options) {
    TruthyOpt(o.username) && TruthyOpt(o.password)
  }

  /** The three options every request starts with. */
  function StartOptions(o: Options): Dict<int, CurlValue> {
    [(CURLOPT_HEADER, Flag(true)), (CURLOPT_RETURNTRANSFER, Flag(true)),
     (CURLOPT_USERAGENT, Text(o.userAgent))]
  }

  /** CURLOPT_USERPWD = "user:password" when both are set. */
  function WithCredentials(o: Options, d: Dict<int, CurlValue>): Dict<int, CurlValue> {
    if HasCredentials(o)
    then Assign(d, CURLOPT_USERPWD, Text(o.username.value + ":" + o.password.value))
    else d
  }

  /** CURLOPT_HTTPHEADER when the configured or the call's headers are non-empty. */
  function WithHeaders(o: Options, headers: Dict<string, string>, d: Dict<int, CurlValue>): Dict<int, CurlValue> {
    if |o.headers| > 0 || |headers| > 0
    then Assign(d, CURLOPT_HTTPHEADER, Lines(HeaderLines(Overlay(o.headers, headers))))
    else d
  }

  /** The body placement: POST sets CURLOPT_POST, any other verb except GET
      is sent as a custom request; both carry the parameters as the body. */
  function Placement(d: Dict<int, CurlValue>, httpMethod: string, p: string): Dict<int, CurlValue> {
    if Upper(httpMethod) == "POST" then
      Assign(Assign(d, CURLOPT_POST, Flag(true)), CURLOPT_POSTFIELDS, Text(p))
    else if Upper(httpMethod) != "GET" then
      Assign(Assign(d, CURLOPT_CUSTOMREQUEST, Text(Upper(httpMethod))), CURLOPT_POSTFIELDS, Text(p))
    else d
  }

  /** The final request URL. */
  function FinalUrl(o: Options, url: string, httpMethod: string, params: Parameters): string {
    WithBase(o, RequestPath(o, url, httpMethod, ParameterString(o, params)))
  }

  /** The option array before the caller's cURL options are laid over it. */
  function DerivedOptions(o: Options, url: string, httpMethod: string, params: Parameters,
                          headers: Dict<string, string>): Dict<int, CurlValue>
  {
    var withHeaders := WithHeaders(o, headers, WithCredentials(o, StartOptions(o)));
    var placed := Placement(withHeaders, httpMethod, ParameterString(o, params));
    Assign(placed, CURLOPT_URL, Text(FinalUrl(o, url, httpMethod, params)))
  }

  /** The complete option array execute() passes to cURL. */
  function RequestOptions(o: Options, url: string, httpMethod: string, params: Parameters,
                          headers: Dict<string, string>): Dict<int, CurlValue>
  {
    Overlay(DerivedOptions(o, url, httpMethod, params, headers), o.curlOptions)
  }

  /** The value execute() derives for one cURL option, key by key. */
  function Derived(o: Options, url: string, httpMethod: string, params: Parameters,
                   headers: Dict<string, string>, key: int): Option<CurlValue>
  {
    var p := ParameterString(o, params);
    var verb := Upper(httpMethod);
    if key == CURLOPT_HEADER || key == CURLOPT_RETURNTRANSFER then Some(Flag(true))
    else if key == CURLOPT_USERAGENT then Some(Text(o.userAgent))
    else if key == CURLOPT_USERPWD then
      (if HasCredentials(o) then Some(Text(o.username.value + ":" + o.password.value)) else None)
    else if key == CURLOPT_HTTPHEADER then
      (if |o.headers| > 0 || |headers| > 0
       then Some(Lines(HeaderLines(Overlay(o.headers, headers)))) else None)
    else if key == CURLOPT_POST then (if verb == "POST" then Some(Flag(true)) else None)
    else if key == CURLOPT_CUSTOMREQUEST then
      (if verb != "POST" && verb != "GET" then Some(Text(verb)) else None)
    else if key == CURLOPT_POSTFIELDS then (if verb != "GET" then Some(Text(p)) else None)
    else if key == CURLOPT_URL then Some(Text(FinalUrl(o, url, httpMethod, params)))
    else None
  }

  lemma StartLookup(o: Options, key: int)
    ensures Lookup(StartOptions(o), key) ==
      if key == CURLOPT_HEADER || key == CURLOPT_RETURNTRANSFER then Some(Flag(true))
      else if key == CURLOPT_USERAGENT then Some(Text(o.userAgent))
      else None
  {
    var d := StartOptions(o);
    assert Lookup(d, key) == if key == CURLOPT_HEADER then Some(Flag(true)) else Lookup(d[1..], key);
    assert Lookup(d[1..], key) == if key == CURLOPT_RETURNTRANSFER then Some(Flag(true)) else Lookup(d[2..], key);
    assert d[1..][1..] == d[2..];
    assert Lookup(d[2..], key) == if key == CURLOPT_USERAGENT then Some(Text(o.userAgent)) else Lookup(d[3..], key);
    assert d[2..][1..] == d[3..];
    assert |d[3..]| == 0;
  }

  lemma CredentialsLookup(o: Options, d: Dict<int, CurlValue>, key: int)
    ensures Lookup(WithCredentials(o, d), key) ==
      if key == CURLOPT_USERPWD && HasCredentials(o)
      then Some(Text(o.username.value + ":" + o.password.value))
      else Lookup(d, key)
  {
    if HasCredentials(o) {
      AssignLookup(d, CURLOPT_USERPWD, Text(o.username.value + ":" + o.password.value), key);
    }
  }

  lemma HeadersLookup(o: Options, headers: Dict<string, string>, d: Dict<int, CurlValue>, key: int)
    ensures Lookup(WithHeaders(o, headers, d), key) ==
      if key == CURLOPT_HTTPHEADER && (|o.headers| > 0 || |headers| > 0)
      then Some(Lines(HeaderLines(Overlay(o.headers, headers))))
      else Lookup(d, key)
  {
    if |o.headers| > 0 || |headers| > 0 {
      AssignLookup(d, CURLOPT_HTTPHEADER, Lines(HeaderLines(Overlay(o.headers, headers))), key);
    }
  }

  lemma PlacementLookup(d: Dict<int, CurlValue>, httpMethod: string, p: string, key: int)
    ensures var verb := Upper(httpMethod);
      Lookup(Placement(d, httpMethod, p), key) ==
        if key == CURLOPT_POST && verb == "POST" then Some(Flag(true))
        else if key == CURLOPT_CUSTOMREQUEST && verb != "POST" && verb != "GET" then Some(Text(verb))
        else if key == CURLOPT_POSTFIELDS && verb != "GET" then Some(Text(p))
        else Lookup(d, key)
  {
    var verb := Upper(httpMethod);
    if verb == "POST" {
      AssignLookup(d, CURLOPT_POST, Flag(true), key);
      AssignLookup(Assign(d, CURLOPT_POST, Flag(true)), CURLOPT_POSTFIELDS, Text(p), key);
    } else if verb != "GET" {
      AssignLookup(d, CURLOPT_CUSTOMREQUEST, Text(verb), key);
      AssignLookup(Assign(d, CURLOPT_CUSTOMREQUEST, Text(verb)), CURLOPT_POSTFIELDS, Text(p), key);
    }
  }

  /** execute() before the cURL overlay derives exactly the options Derived
      names, key by key. */
  lemma DerivedByKey(o: Options, url: string, httpMethod: string, params: Parameters,
                     headers: Dict<string, string>, key: int)
    ensures Lookup(DerivedOptions(o, url, httpMethod, params, headers), key) ==
      Derived(o, url, httpMethod, params, headers, key)
  {
    var start := StartOptions(o);
    var withCredentials := WithCredentials(o, start);
    var withHeaders := WithHeaders(o, headers, withCredentials);
    var p := ParameterString(o, params);
    var placed := Placement(withHeaders, httpMethod, p);
    StartLookup(o, key);
    CredentialsLookup(o, start, key);
    HeadersLookup(o, headers, withCredentials, key);
    PlacementLookup(withHeaders, httpMethod, p, key);
    AssignLookup(placed, CURLOPT_URL, Text(FinalUrl(o, url, httpMethod, params)), key);
  }

  /** Every caller cURL option replaces the derived option of the same key,
      and every other option is the one execute() derived. */
  lemma RequestOptionsByKey(o: Options, url: string, httpMethod: string, params: Parameters,
                            headers: Dict<string, string>, key: int)
    requires UniqueKeys(o.curlOptions)
    ensures Lookup(RequestOptions(o, url, httpMethod, params, headers), key) ==
      if HasKey(o.curlOptions, key) then Lookup(o.curlOptions, key)
      else Derived(o, url, httpMethod, params, headers, key)
  {
    DerivedByKey(o, url, httpMethod, params, headers, key);
    OverlayLookup(DerivedOptions(o, url, httpMethod, params, headers), o.curlOptions, key);
  }

  /** The value array_merge(configured, call) holds under a key: the call's
      when the call has the key, the configured one otherwise. */
  function MergedHeader(configured: Dict<string, string>, call: Dict<string, string>, k: string): Option<string> {
    if HasKey(call, k) then Lookup(call, k) else Lookup(configured, k)
  }

  /** The header option lists one "key:value" line per key of
      array_merge(configured, call): configured keys first, in their order,
      then the call's new keys in the call's order, each line carrying the
      call's value when the call has that key. */
  lemma HeaderLinesMerged(configured: Dict<string, string>, call: Dict<string, string>)
    requires UniqueKeys(configured) && UniqueKeys(call)
    ensures Keys(Overlay(configured, call)) == Keys(configured) + NewKeys(Keys(configured), call)
    ensures UniqueKeys(Overlay(configured, call))
    ensures |HeaderLines(Overlay(configured, call))| == |Overlay(configured, call)|
    ensures forall i :: 0 <= i < |Overlay(configured, call)| ==>
      var k := Overlay(configured, call)[i].0;
      MergedHeader(configured, call, k).Some? &&
      HeaderLines(Overlay(configured, call))[i] == k + ":" + MergedHeader(configured, call, k).value
  {
    var merged := Overlay(configured, call);
    OverlayKeys(configured, call);
    forall i | 0 <= i < |merged|
      ensures MergedHeader(configured, call, merged[i].0).Some?
      ensures HeaderLines(merged)[i] == merged[i].0 + ":" + MergedHeader(configured, call, merged[i].0).value
    {
      var k := merged[i].0;
      LookupAt(merged, i);
      OverlayLookup(configured, call, k);
      assert Lookup(merged, k) == Some(merged[i].1);
      assert MergedHeader(configured, call, k) == Some(merged[i].1);
      assert HeaderLines(merged)[i] == k + ":" + merged[i].1;
    }
  }

  /** Array parameters: the call's value wins on a shared key, the defaults
      fill the rest; a string is used verbatim, defaults ignored. */
  lemma ParametersMerged(o: Options, params: Parameters, k: string)
    requires params.Fields? ==> UniqueKeys(params.fields)
    ensures params.Fields? ==>
      ParameterString(o, params) == Query(Overlay(o.parameters, params.fields)) &&
      Lookup(Overlay(o.parameters, params.fields), k) ==
        (if HasKey(params.fields, k) then Lookup(params.fields, k) else Lookup(o.parameters, k))
    ensures params.Encoded? ==> ParameterString(o, params) == params.text
  {
    if params.Fields? {
      OverlayLookup(o.parameters, params.fields, k);
    }
  }

  /** The separator is '&' exactly when the original url has a '?' that is
      not its first character. */
  lemma QuerySeparatorChoice(url: string)
    ensures QuerySeparator(url) == "&" <==> '?' in url && url[0] != '?'
    ensures QuerySeparator(url) == "&" || QuerySeparator(url) == "?"
  {
  }

  /** The path part of the URL: the format suffix always follows the url, and
      the query string is appended after it for a GET with a non-empty
      parameter string only; POST and custom verbs never get one. */
  lemma RequestPathLayout(o: Options, url: string, httpMethod: string, p: string)
    ensures Upper(httpMethod) == "GET" && Truthy(p) ==>
      RequestPath(o, url, httpMethod, p) == url + FormatSuffix(o) + QuerySeparator(url) + p
    ensures !(Upper(httpMethod) == "GET" && Truthy(p)) ==>
      RequestPath(o, url, httpMethod, p) == url + FormatSuffix(o)
    ensures TruthyOpt(o.format) ==> FormatSuffix(o) == "." + o.format.value
    ensures !TruthyOpt(o.format) ==> FormatSuffix(o) == ""
  {
  }

  /** The base URL is joined with exactly the slash the two parts lack: one
      '/' is added only when neither side has it, so a base ending in '/'
      and a path starting with '/' give a double slash. */
  lemma BaseJoin(o: Options, path: string)
    ensures !TruthyOpt(o.baseUrl) ==> WithBase(o, path) == path
    ensures TruthyOpt(o.baseUrl) ==>
      var b := o.baseUrl.value;
      var pathSlash := |path| > 0 && path[0] == '/';
      var baseSlash := b[|b| - 1] == '/';
      && (!pathSlash && !baseSlash ==> WithBase(o, path) == b + "/" + path)
      && (pathSlash || baseSlash ==> WithBase(o, path) == b + path)
      && (pathSlash && baseSlash ==> WithBase(o, path)[|b| - 1..|b| + 1] == "//")
  {
  }

  // ---------------------------------------------------------------------------
  // Worked examples of the request URL, with base URL "http://h".

  /** The parameter array ['a' => '1'] encodes as a=1. */
  lemma QueryOfA1()
    ensures Query([("a", "1")]) == "a=1"
  {
    assert UrlEncode("a") == "a" by {
      assert IsUnreserved('a');
      assert UrlEncode("a") == UrlEncodeChar('a') + UrlEncode([]);
    }
    assert UrlEncode("1") == "1" by {
      assert IsUnreserved('1');
      assert UrlEncode("1") == UrlEncodeChar('1') + UrlEncode([]);
    }
    assert Pair("a", "1") == "a=1";
  }

  lemma UpperOfVerbs()
    ensures Upper("GET") == "GET" && Upper("POST") == "POST"
  {
    assert Upper("GET") == [UpperChar('G'), UpperChar('E'), UpperChar('T')];
    assert Upper("POST") == [UpperChar('P'), UpperChar('O'), UpperChar('S'), UpperChar('T')];
  }

  /** Without default parameters, ['a' => '1'] is sent as a=1. */
  lemma ParametersA1(o: Options)
    requires o.parameters == []
    ensures ParameterString(o, Fields([("a", "1")])) == "a=1"
  {
    QueryOfA1();
    var d := [("a", "1")];
    assert Overlay([], d) == Overlay(Assign([], "a", "1"), []);
  }

  /** A GET appends the query after '?'. */
  lemma GetUrlExample(o: Options)
    requires o.baseUrl == Some("http://h") && o.format == None && o.parameters == []
    ensures FinalUrl(o, "x", "GET", Fields([("a", "1")])) == "http://h/x?a=1"
  {
    ParametersA1(o);
    UpperOfVerbs();
    assert StrPos("x", '?') == None;
    assert RequestPath(o, "x", "GET", "a=1") == "x?a=1";
  }

  /** A GET on a url that already has a query string appends after '&'. */
  lemma GetUrlWithQueryExample(o: Options)
    requires o.baseUrl == Some("http://h") && o.format == None && o.parameters == []
    ensures FinalUrl(o, "x?y=1", "GET", Fields([("a", "1")])) == "http://h/x?y=1&a=1"
  {
    ParametersA1(o);
    UpperOfVerbs();
    assert "x?y=1"[1] == '?';
    assert StrPos("x?y=1", '?') == Some(1);
    assert RequestPath(o, "x?y=1", "GET", "a=1") == "x?y=1&a=1";
  }

  /** A POST leaves the url alone: the parameters go in the body. */
  lemma PostUrlExample(o: Options)
    requires o.baseUrl == Some("http://h") && o.format == None && o.parameters == []
    ensures FinalUrl(o, "x", "POST", Fields([("a", "1")])) == "http://h/x"
  {
    ParametersA1(o);
    UpperOfVerbs();
    assert RequestPath(o, "x", "POST", "a=1") == "x";
  }

  /** A configured format adds its suffix, and no parameters add no query. */
  lemma FormatUrlExample(o: Options)
    requires o.baseUrl == Some("http://h") && o.format == Some("json") && o.parameters == []
    ensures FinalUrl(o, "items", "GET", Fields([])) == "http://h/items.json"
  {
    assert ParameterString(o, Fields([])) == "";
    assert RequestPath(o, "items", "GET", "") == "items.json";
  }
}
