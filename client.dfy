/** RestClient\Client: holds the options and turns a call (url, HTTP method,
    parameters, headers) into a cURL option array, performs it through the
    transport, and parses the raw result into a Response. */
module RestClient {
  import opened Results
  import opened PhpStrings
  import opened PhpArrays
  import opened PhpValues
  import opened Options
  import opened Request
  import opened HeaderParser
  import opened RestResponse

  /** What curl_exec, curl_error and curl_getinfo report for one request; a
      failed curl_exec (false) is the empty result. */
  datatype Exchange = Exchange(result: string, error: string, info: Dict<ArrayKey, Value>)

  /** The network: the exchange cURL performs for an option array. */
  type Transport = Dict<int, CurlValue> -> Exchange

  class Client {
    var options: Options

    /** Every table in the options is a PHP array. */
    ghost predicate Valid()
      reads this
    {
      WellFormed(options)
    }

    /** The caller's option array is a sequence of settings; being a PHP
        array, none of its tables has a key twice. */
    constructor(settings: seq<Setting>, jsonDecode: Decoder, unserialize: Decoder)
      requires AllWellFormed(settings)
      ensures options == Construct(settings, jsonDecode, unserialize)
      ensures Valid()
    {
      var merged := ApplyAll(Defaults(jsonDecode, unserialize), settings);
      var supplied := SuppliedDecoders(settings);
      if supplied.Some? {
        merged := merged.(decoders := Overlay(BuiltinDecoders(jsonDecode, unserialize), supplied.value));
      }
      options := merged;
      ConstructWellFormed(settings, jsonDecode, unserialize);
    }

    /** setOption(): replace one option. */
    method SetOption(s: Setting)
      requires Valid() && WellFormedSetting(s)
      modifies this
      ensures options == Apply(old(options), s)
      ensures Valid()
    {
      options := Apply(options, s);
    }

    /** registerDecoder(): add or replace the decoder of one format; every
        other format keeps its decoder. */
    method RegisterDecoder(format: string, decoder: Decoder)
      requires Valid()
      modifies this
      ensures options == old(options).(decoders := Assign(old(options).decoders, format, decoder))
      ensures Lookup(options.decoders, format) == Some(decoder)
      ensures forall f :: f != format ==> Lookup(options.decoders, f) == Lookup(old(options).decoders, f)
      ensures Valid()
    {
      options := options.(decoders := Assign(options.decoders, format, decoder));
      forall f | f != format
        ensures Lookup(options.decoders, f) == Lookup(old(options).decoders, f)
      {
        AssignLookup(old(options).decoders, format, decoder, f);
      }
    }

    /** formatQuery(): append "key=value&" per parameter, then strip the
        trailing '&'s. */
    method FormatQuery(parameters: Dict<string, string>) returns (r: string)
      ensures r == Query(parameters)
    {
      var query := "";
      var i := 0;
      while i < |parameters|
        invariant 0 <= i <= |parameters|
        invariant query == Accumulated(parameters[..i])
      {
        var (key, value) := parameters[i];
        assert parameters[..i + 1][..i] == parameters[..i];
        query := query + (UrlEncode(key) + "=" + UrlEncode(value)) + "&";
        i := i + 1;
      }
      assert parameters[..i] == parameters;
      r := RTrimChar(query, '&');
      FormatQueryResult(parameters);
    }

    /** The header lines of execute(), one "key:value" per merged header. */
    method HeaderOption(merged: Dict<string, string>) returns (lines: seq<string>)
      ensures lines == HeaderLines(merged)
    {
      lines := [];
      var i := 0;
      while i < |merged|
        invariant 0 <= i <= |merged|
        invariant lines == HeaderLines(merged[..i])
      {
        var (key, value) := merged[i];
        lines := lines + [key + ":" + value];
        i := i + 1;
      }
      assert merged[..i] == merged;
    }

    /** The options every request carries: the fixed three, the credentials
        when both are set, and the merged header lines when there are any. */
    method BaseOptions(headers: Dict<string, string>) returns (curlopt: Dict<int, CurlValue>)
      ensures curlopt == WithHeaders(options, headers, WithCredentials(options, StartOptions(options)))
    {
      curlopt := [(CURLOPT_HEADER, Flag(true)), (CURLOPT_RETURNTRANSFER, Flag(true)),
                  (CURLOPT_USERAGENT, Text(options.userAgent))];
      if TruthyOpt(options.username) && TruthyOpt(options.password) {
        curlopt := Assign(curlopt, CURLOPT_USERPWD,
                          Text(options.username.value + ":" + options.password.value));
      }
      if |options.headers| > 0 || |headers| > 0 {
        var lines := HeaderOption(Overlay(options.headers, headers));
        curlopt := Assign(curlopt, CURLOPT_HTTPHEADER, Lines(lines));
      }
    }

    /** The parameter string of execute(). */
    method ParametersOf(parameters: Parameters) returns (parameterString: string)
      ensures parameterString == ParameterString(options, parameters)
    {
      match parameters {
        case Fields(fields) =>
          parameterString := FormatQuery(Overlay(options.parameters, fields));
        case Encoded(text) =>
          parameterString := text;
      }
    }

    /** Where the parameters go: POST fields, a custom request's body, or the
        query string of a GET. */
    method PlaceParameters(curlopt0: Dict<int, CurlValue>, requestUrl0: string, url: string,
                           httpMethod: string, parameterString: string)
      returns (curlopt: Dict<int, CurlValue>, requestUrl: string)
      ensures curlopt == Placement(curlopt0, httpMethod, parameterString)
      ensures requestUrl == requestUrl0 +
        (if Upper(httpMethod) == "GET" && Truthy(parameterString)
         then QuerySeparator(url) + parameterString else "")
    {
      curlopt, requestUrl := curlopt0, requestUrl0;
      var verb := Upper(httpMethod);
      if verb == "POST" {
        curlopt := Assign(curlopt, CURLOPT_POST, Flag(true));
        curlopt := Assign(curlopt, CURLOPT_POSTFIELDS, Text(parameterString));
      } else if verb != "GET" {
        curlopt := Assign(curlopt, CURLOPT_CUSTOMREQUEST, Text(verb));
        curlopt := Assign(curlopt, CURLOPT_POSTFIELDS, Text(parameterString));
      } else if Truthy(parameterString) {
        requestUrl := requestUrl + QuerySeparator(url);
        requestUrl := requestUrl + parameterString;
      }
    }

    /** Prefixing base_url. */
    method JoinBase(path: string) returns (requestUrl: string)
      ensures requestUrl == WithBase(options, path)
    {
      requestUrl := path;
      if TruthyOpt(options.baseUrl) {
        var base := options.baseUrl.value;
        if (requestUrl == [] || requestUrl[0] != '/') && base[|base| - 1] != '/' {
          requestUrl := "/" + requestUrl;
        }
        requestUrl := base + requestUrl;
      }
    }

    /** The caller's cURL options, copied one by one over the derived ones
        (array_merge would renumber their integer keys). */
    method CopyCurlOptions(derived: Dict<int, CurlValue>) returns (curlopt: Dict<int, CurlValue>)
      ensures curlopt == Overlay(derived, options.curlOptions)
    {
      curlopt := derived;
      var extra := options.curlOptions;
      var j := 0;
      while j < |extra|
        invariant 0 <= j <= |extra|
        invariant curlopt == Overlay(derived, extra[..j])
      {
        OverlayPrefixStep(derived, extra, j);
        curlopt := Assign(curlopt, extra[j].0, extra[j].1);
        j := j + 1;
      }
      assert extra[..j] == extra;
    }

    /** The body of execute() up to parse_response(): the cURL option array
        for the call. */
    method BuildOptions(url: string, httpMethod: string, parameters: Parameters,
                        headers: Dict<string, string>) returns (curlopt: Dict<int, CurlValue>)
      ensures curlopt == RequestOptions(options, url, httpMethod, parameters, headers)
    {
      var requestUrl := url;
      var base := BaseOptions(headers);
      if TruthyOpt(options.format) {
        requestUrl := requestUrl + "." + options.format.value;
      }
      assert requestUrl == url + FormatSuffix(options);
      var parameterString := ParametersOf(parameters);
      var placed, path := PlaceParameters(base, requestUrl, url, httpMethod, parameterString);
      assert path == RequestPath(options, url, httpMethod, parameterString);
      requestUrl := JoinBase(path);
      assert requestUrl == FinalUrl(options, url, httpMethod, parameters);
      var derived := Assign(placed, CURLOPT_URL, Text(requestUrl));
      assert derived == DerivedOptions(options, url, httpMethod, parameters, headers);
      curlopt := CopyCurlOptions(derived);
    }

    /** parse_response(): perform the request, split the raw result into
        headers and body, and wrap them in a new Response. */
    method ParseResponse(curlOptions: Dict<int, CurlValue>, transport: Transport)
      returns (response: Response)
      ensures fresh(response) && response.Valid()
      ensures var exchange := transport(curlOptions);
        && response.options == options
        && response.headers == ParseBlock(exchange.result).0
        && response.response == ParseBlock(exchange.result).1
        && response.error == exchange.error
        && response.info == Obj(exchange.info)
        && response.decoded == Null && response.decoderCalls == 0
    {
      var exchange := transport(curlOptions);
      var headers, body := ParseHeaderBlock(exchange.result);
      response := new Response(options);
      response.SetHeaders(headers);
      response.SetResponse(body);
      response.SetError(exchange.error);
      response.SetInfo(Obj(exchange.info));
    }

    /** execute(): build the option array, perform it, parse the result. */
    method Execute(url: string, httpMethod: string, parameters: Parameters,
                   headers: Dict<string, string>, transport: Transport)
      returns (response: Response)
      ensures fresh(response) && response.Valid()
      ensures var exchange := transport(RequestOptions(options, url, httpMethod, parameters, headers));
        && response.options == options
        && response.headers == ParseBlock(exchange.result).0
        && response.response == ParseBlock(exchange.result).1
        && response.error == exchange.error
        && response.info == Obj(exchange.info)
        && response.decoded == Null && response.decoderCalls == 0
    {
      var curlopt := BuildOptions(url, httpMethod, parameters, headers);
      response := ParseResponse(curlopt, transport);
    }

    /** get(), post(), put() and delete(): execute() with a fixed method. */
    method Get(url: string, parameters: Parameters, headers: Dict<string, string>, transport: Transport)
      returns (response: Response)
      ensures fresh(response) && response.Valid()
      ensures var exchange := transport(RequestOptions(options, url, "GET", parameters, headers));
        && response.options == options
        && response.headers == ParseBlock(exchange.result).0
        && response.response == ParseBlock(exchange.result).1
        && response.error == exchange.error
        && response.info == Obj(exchange.info)
        && response.decoded == Null && response.decoderCalls == 0
    {
      response := Execute(url, "GET", parameters, headers, transport);
    }

    method Post(url: string, parameters: Parameters, headers: Dict<string, string>, transport: Transport)
      returns (response: Response)
      ensures fresh(response) && response.Valid()
      ensures var exchange := transport(RequestOptions(options, url, "POST", parameters, headers));
        && response.options == options
        && response.headers == ParseBlock(exchange.result).0
        && response.response == ParseBlock(exchange.result).1
        && response.error == exchange.error
        && response.info == Obj(exchange.info)
        && response.decoded == Null && response.decoderCalls == 0
    {
      response := Execute(url, "POST", parameters, headers, transport);
    }

    method Put(url: string, parameters: Parameters, headers: Dict<string, string>, transport: Transport)
      returns (response: Response)
      ensures fresh(response) && response.Valid()
      ensures var exchange := transport(RequestOptions(options, url, "PUT", parameters, headers));
        && response.options == options
        && response.headers == ParseBlock(exchange.result).0
        && response.response == ParseBlock(exchange.result).1
        && response.error == exchange.error
        && response.info == Obj(exchange.info)
        && response.decoded == Null && response.decoderCalls == 0
    {
      response := Execute(url, "PUT", parameters, headers, transport);
    }

    method Delete(url: string, parameters: Parameters, headers: Dict<string, string>, transport: Transport)
      returns (response: Response)
      ensures fresh(response) && response.Valid()
      ensures var exchange := transport(RequestOptions(options, url, "DELETE", parameters, headers));
        && response.options == options
        && response.headers == ParseBlock(exchange.result).0
        && response.response == ParseBlock(exchange.result).1
        && response.error == exchange.error
        && response.info == Obj(exchange.info)
        && response.decoded == Null && response.decoderCalls == 0
    {
      response := Execute(url, "DELETE", parameters, headers, transport);
    }
  }
}
