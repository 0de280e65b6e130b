# php-restclient in Dafny

A model of the PHP REST client `RestClient\Client` / `RestClient\Response`
and proofs about it.

- **Client configuration.** A `Client` holds an options table. The
  constructor builds it from defaults and the caller's options, and
  `setOption` and `registerDecoder` update it.
- **Building a request.** `execute` turns a call (url, HTTP method,
  parameters, headers) into the cURL option array. It adds the user agent,
  credentials, the merged header lines, the `.format` suffix and the
  url-encoded query made by `formatQuery`. It places the parameters by
  method (POST body, custom-verb body or GET query string), joins the
  base URL, and finally copies the caller's raw cURL options over the
  result.
- **Parsing the result.** `parse_response` cuts the raw result with
  `strtok`. The status line is skipped. Each header line is normalised,
  and repeated names are folded into lists. What follows the header block
  becomes the body of a new `Response`.
- **Response.** A `Response` decodes its body on first use, with the
  decoder registered for its format. The format is the configured one,
  else capture group 2 of `format_regex` matched against `Content-Type`.
  The decoded value is cached while it is not `empty()`. The value is read
  through a cursor (PHP's `Iterator`) and through read-only indexing
  (`ArrayAccess`). Writes always throw.

## Layout

| file | module | contents |
|---|---|---|
| `results.dfy` | `Results` | `Option`, `Result` |
| `php_strings.dfy` | `PhpStrings` | `trim`, `strtolower`/`strtoupper`, `strpos`, `strtok`, `urlencode`/`urldecode`, `rtrim` of one character, PHP string truthiness |
| `php_arrays.dfy` | `PhpArrays` | PHP ordered arrays as key/value sequences: lookup, assignment, `foreach` overlay (= `array_merge` on string keys) |
| `php_values.dfy` | `PhpValues` | decoded values (arrays, objects, scalars), `empty()`, `isset`, the internal array pointer as a cursor |
| `options.dfy` | `Options` | the options record, its defaults, `setOption`, the constructor merge |
| `request.dfy` | `Request` | functions that specify `execute` and `formatQuery`, the per-key view of the cURL options, and the query-string inverse |
| `header_parser.dfy` | `HeaderParser` | the header loop of `parse_response`, as a function and as the loop method |
| `response.dfy` | `RestResponse` | format resolution, the default `format_regex`, class `Response` |
| `client.dfy` | `RestClient` | class `Client` |

### How the model is built

- **Client.** Class `Client` keeps `options` as a field. Its methods run
  the same loops as the PHP code, and each method is proved equal to a
  specification function over the options:
  - `FormatQuery` to `Request.Query`;
  - `BuildOptions` to `Request.RequestOptions`;
  - `ParseHeaderBlock` to `HeaderParser.ParseBlock`.
  The properties are then proved about those functions, as lemmas.
- **Response.** Class `Response` keeps the decode cache and the cursor as
  fields. A ghost counter, `decoderCalls`, records every call of a decoder
  callback, so the caching behaviour can be stated.
- **Exceptions** (`RestClientException`) are `Err` values of
  `RestResponse.Error`. `RestResponse.Message` gives their texts.
- **Outside inputs.**
  - The cURL exchange is a `Transport` parameter: a function from the
    option array to the raw result, error text and info table.
  - `json_decode` and `unserialize` are `Decoder` parameters of the
    constructor.
  - A caller's `format_regex` is modelled by what it captures in group 2.
- **Option arrays.** The caller's option array is a sequence of
  `Setting`s. Each one names one known option, as `setOption` does. PHP
  arrays never hold a key twice, so tables passed in are required to have
  unique keys (`UniqueKeys`, `AllWellFormed`).

### Where the behaviour is easy to misread

The model follows the code in each of these points:

- **`urlencode` is form encoding.** A space becomes `+`, not `%20`. Only
  ASCII letters, digits and `-_.` are copied unchanged.
- **Call headers replace configured ones.** `array_merge` gives one
  header line per key, and the call's value wins. No duplicate line is
  emitted.
- **A header line without `:` is stored, not skipped.** Its value is
  `""`, because `list()` yields null and `trim(null)` is `""`.
- **A stored `""` or `"0"` is overwritten.** The `empty($headers[$key])`
  check means that a later line with the same name replaces such a value
  instead of starting a list.
- **Blank lines in the header block.** `strtok` skips runs of `"\n"`, so
  an empty line never ends the header block. Only a line that trims to
  nothing ends it: `"\r"` does, and so does a line `"0"`, which is falsy.
- **The `?`/`&` choice.** `strpos($url, '?')` is applied to the original
  url. A `?` at position 0 counts as absent.
- **Empty decode results are not cached.** The cache check is `empty()`,
  so such a result is decoded again on every access. `offsetGet` runs
  the decoder twice on it.

## Model

| member | source | states |
|---|---|---|
| Options.Construct | src/Client.php:20-41 | With no caller options the result is the defaults. Every option except the decoder table is the defaults merged with the caller's settings. The decoder table is the built-ins, overlaid with the caller's table when one is given. |
| RestClient.Client.constructor | src/Client.php:20-41 | The options are the defaults overlaid with the caller's settings. If the caller supplied decoders, the table is the built-ins overlaid with them. The result is well-formed. |
| Options.ConstructDecoders | src/Client.php:29-40 | Per format, the decoder is the caller's when their table has that key, and the built-in otherwise. `json` stays `json_decode` unless overridden. |
| Options.ConstructWellFormed | src/Client.php:37-40 | The constructor's tables never hold a key twice. |
| Options.ApplyAllWellFormed | src/Client.php:37 | Merging in well-formed settings keeps every table well-formed. |
| Options.Apply | src/Client.php:47-49 | Setting one option changes that option only. All nine others keep their values. |
| RestClient.Client.SetOption | src/Client.php:47-49 | The new options are the old ones with that one setting applied. Well-formedness is kept. |
| RestClient.Client.RegisterDecoder | src/Client.php:58-60 | The format now maps to the new decoder. Every other format keeps its decoder, and no other option changes. |
| Request.Query | src/Client.php:159-167 | The query is `""` exactly when there are no pairs, and otherwise starts with the first encoded pair. |
| RestClient.Client.FormatQuery | src/Client.php:159-167 | The loop and the `rtrim` produce exactly `Query`, the encoded pairs in order joined by `&`, and `""` for no pairs. |
| Request.FormatQueryResult | src/Client.php:159-167 | After the last pair, `rtrim($query, '&')` removes exactly one trailing `&`. |
| Request.AccumulatedIsQuery | src/Client.php:161-164 | After a non-empty loop, the accumulated string is `Query` followed by one `&`. |
| Request.QuerySnoc | src/Client.php:161-164 | One more pair appends `&` and that pair to `Query`. |
| Request.QueryEndsWell | src/Client.php:166 | A non-empty query never ends in `&`. |
| Request.PairEndsWell | src/Client.php:162-163 | An encoded pair is non-empty and never ends in `&`. |
| Request.QueryRoundTrip | src/Client.php:159-167 | For byte strings, splitting the query on `&` and `=` and url-decoding both halves gives back the parameters, in order. |
| Request.QuerySplits | src/Client.php:161-166 | A non-empty query splits on `&` into exactly its encoded pairs. |
| Request.DecodePairOfPair | src/Client.php:162-163 | `urlencode(k)=urlencode(v)` decodes back to `(k, v)`. |
| Request.DecodePairsOfPairs | src/Client.php:161-164 | Decoding the sequence of encoded pairs gives back the parameters. |
| PhpStrings.UrlDecodeEncode | src/Client.php:162 | `urldecode` inverts `urlencode` on byte strings. |
| PhpStrings.UrlEncodeHasNoSeparators | src/Client.php:162-163 | `urlencode` output never holds `&` or `=`, so pairs stay separable. |
| PhpStrings.UrlDecodeOfEncodedChar | src/Client.php:162 | Decoding one encoded byte yields that byte, and decoding carries on after it. |
| PhpStrings.UrlDecodeOfEscape | src/Client.php:162 | `%XY` with two upper-case hex digits decodes to the byte they spell. |
| PhpStrings.HexDigit | src/Client.php:162 | Each hex digit `urlencode` writes is a valid digit that reads back as its number. |
| PhpStrings.Trim | src/Client.php:189 | `trim` returns a slice of its input. Only trim characters lie before and after that slice, and the slice has no trim character at either end. It gives `""` exactly when the line holds only trim characters. |
| PhpStrings.StrPos | src/Client.php:128 | `strpos` gives the first occurrence, or false exactly when the character is absent. |
| PhpStrings.Strtok | src/Client.php:186-188 | A token is non-empty and has no newline, and the saved position strictly advances. |
| PhpStrings.StrtokToken | src/Client.php:186-188 | `strtok` gives false exactly when only newlines are left. Otherwise it skips newlines, then the token is the text up to the next newline or the end, and the saved position is just after that newline. A token holds no newline. |
| PhpStrings.StrtokShift | src/Client.php:186-188 | `strtok` from a saved position gives the same token on the text from any earlier position on. |
| PhpStrings.StrtokRestShift | src/Client.php:204 | `strtok("")` likewise only looks at the text from its saved position on. |
| PhpStrings.TrailingRun | src/Client.php:166 | Everything from the returned position to the end is the character, and the character before it is not. |
| Request.ParametersMerged | src/Client.php:115-119 | Array parameters are `formatQuery` of the merge, where the call's value wins per key. A string is used verbatim, with no defaults. |
| RestClient.Client.ParametersOf | src/Client.php:115-119 | Computes the parameter string `ParameterString` specifies. |
| Request.StartLookup | src/Client.php:89-93 | The initial array holds `CURLOPT_HEADER` and `CURLOPT_RETURNTRANSFER` = true, and `CURLOPT_USERAGENT` = the user agent. No other key is present. |
| Request.CredentialsLookup | src/Client.php:95-97 | `CURLOPT_USERPWD` is `user:password` exactly when both are truthy. Every other key is untouched. |
| Request.HeadersLookup | src/Client.php:99-105 | `CURLOPT_HTTPHEADER` is set exactly when the configured or the call headers are non-empty. It then holds the merged lines. |
| Request.HeaderLinesMerged | src/Client.php:99-105 | One `key:value` line per merged key: configured keys in their order, then the call's new keys. Each line carries the call's value when the call has the key. |
| RestClient.Client.HeaderOption | src/Client.php:102-104 | The loop builds one `key:value` line per header, in order. |
| RestClient.Client.BaseOptions | src/Client.php:89-105 | Builds the start options with credentials and headers, as specified. |
| Request.PlacementLookup | src/Client.php:121-126 | POST sets `CURLOPT_POST` and the body. Another non-GET verb sets `CURLOPT_CUSTOMREQUEST` to the upper-cased verb, plus the body. GET sets neither. |
| RestClient.Client.PlaceParameters | src/Client.php:121-130 | Only a GET with a truthy parameter string extends the URL. Other verbs put the parameters in the options. |
| Request.QuerySeparatorChoice | src/Client.php:128 | The separator is `&` exactly when the original url has a `?` that is not its first character, and `?` otherwise. |
| Request.RequestPathLayout | src/Client.php:107-130 | The format suffix comes right after the url. The query follows it only for a GET with a truthy parameter string. |
| Request.GetUrlExample | src/Client.php:107-137 | With base `http://h`, no format and no default parameters, a GET of `x` with `a=1` requests `http://h/x?a=1`. |
| Request.GetUrlWithQueryExample | src/Client.php:107-137 | In the same setting, a GET of `x?y=1` with `a=1` requests `http://h/x?y=1&a=1`. |
| Request.PostUrlExample | src/Client.php:107-137 | In the same setting, a POST of `x` requests `http://h/x`. |
| Request.FormatUrlExample | src/Client.php:107-137 | With format `json`, a GET of `items` without parameters requests `http://h/items.json`. |
| Request.ParametersA1 | src/Client.php:115-119 | Without default parameters, `['a' => '1']` is sent as `a=1`. |
| Request.QueryOfA1 | src/Client.php:159-167 | `['a' => '1']` encodes as `a=1`. |
| Request.BaseJoin | src/Client.php:132-137 | A `/` is inserted only when the path does not start with one and the base does not end with one. Both having one gives `//`. Without a base the path is unchanged. |
| RestClient.Client.JoinBase | src/Client.php:132-137 | Joins the base URL as `WithBase` specifies. |
| Request.DerivedByKey | src/Client.php:89-138 | Key by key, the derived array is `Derived`: an independent per-option description of execute(). |
| Request.RequestOptionsByKey | src/Client.php:140-145 | Every caller cURL option replaces the derived option with the same key. Every other key keeps the derived value. |
| RestClient.Client.CopyCurlOptions | src/Client.php:140-145 | The loop lays the caller's cURL options over the derived ones without renumbering. |
| PhpArrays.OverlayPrefixStep | src/Client.php:142-144 | One loop step adds one entry to the overlay. |
| RestClient.Client.BuildOptions | src/Client.php:86-145 | The option array built step by step equals `RequestOptions`. |
| RestClient.Client.ParseResponse | src/Client.php:174-208 | The new response carries the client's options, the headers and body of `ParseBlock` on the raw result, the error and the info object. Nothing is decoded yet. |
| RestClient.Client.Execute | src/Client.php:86-148 | The response is what parsing the transport's answer to `RequestOptions` gives. |
| RestClient.Client.Get | src/Client.php:72-74 | The response is what `execute` with GET gives: the client's options, the parsed headers and body, the error and info, and nothing decoded. |
| RestClient.Client.Post | src/Client.php:220-222 | The response is what `execute` with POST gives, as for `get`. |
| RestClient.Client.Put | src/Client.php:233-235 | The response is what `execute` with PUT gives, as for `get`. |
| RestClient.Client.Delete | src/Client.php:246-248 | The response is what `execute` with DELETE gives, as for `get`. |
| HeaderParser.ParseBlock | src/Client.php:185-204 | The body is `""` or a proper tail of the raw result. |
| HeaderParser.ParseHeaderBlock | src/Client.php:185-204 | The header loop yields exactly `ParseBlock`: the headers, and the rest after the block as the body. |
| HeaderParser.ParseBlockLayout | src/Client.php:185-204 | For a raw result laid out as a status line, header lines, a line that ends the block and a body, each line ended by a newline: the headers are the fold of exactly those header lines, and the body is exactly the text after the ending line. |
| HeaderParser.LayoutLines | src/Client.php:188-189 | In that layout, the tokens before the ending line are exactly the header lines. |
| HeaderParser.LayoutBody | src/Client.php:188-204 | In that layout, what `strtok("")` returns after the loop is exactly the body. |
| HeaderParser.ParseFromBody | src/Client.php:188-204 | The body does not depend on the headers collected. |
| HeaderParser.ParseFromNoEnd | src/Client.php:188-204 | When no token ends the block, the loop runs out of tokens and the body is `""`. |
| HeaderParser.BodyFromTail | src/Client.php:204 | The body is `""` or the text after some position past the loop's start. |
| HeaderParser.ParseFromTail | src/Client.php:204 | The same holds for the loop's body, whatever headers it starts with. |
| HeaderParser.TokensShift | src/Client.php:188 | The tokens from a saved position are the same on the text from any earlier position on. |
| HeaderParser.BodyFromShift | src/Client.php:188-204 | The body from a saved position is the same on the text from any earlier position on. |
| HeaderParser.StrtokLine | src/Client.php:188 | A non-empty line without a newline, followed by a newline, is returned whole as the next token, and `strtok` resumes just after it. |
| HeaderParser.ParseFromFolds | src/Client.php:188-200 | The loop folds exactly the tokens before the first one that ends the header block. |
| HeaderParser.StatusLineSkipped | src/Client.php:186-188 | The first token is the status line and never becomes a header. |
| HeaderParser.TokensAreLines | src/Client.php:186-188 | Every token is a non-empty line without a newline. |
| HeaderParser.FoldLinesLookup | src/Client.php:191-199 | What a name maps to depends only on that name's values, in the order they occur. |
| HeaderParser.StepAllShape | src/Client.php:194-199 | With truthy values, the first occurrence stores a value and the second makes a two-element list. Later ones append. |
| HeaderParser.StepAllSnoc | src/Client.php:194-199 | One more occurrence is one more step of the assignment. |
| HeaderParser.RepeatedHeadersFold | src/Client.php:191-199 | With truthy values, a name seen once maps to its value. A name seen n ≥ 2 times maps to the list of all n values. An unseen name is absent. |
| HeaderParser.FoldLinesKeys | src/Client.php:192 | Every stored name is normalised: no `-`, no upper-case letter, no trim character at either end. No name is stored twice. |
| HeaderParser.NormalizeKeyIsNormal | src/Client.php:192 | `trim(strtolower(str_replace('-', '_', k)))` yields a normalised name. |
| HeaderParser.EmptyValueIsReplaced | src/Client.php:194-195 | A stored `""` or `"0"` is replaced, not listed, by the next occurrence. |
| RestResponse.Response.constructor | src/Response.php:55-57 | The response keeps the given options. It starts with nothing decoded and no decoder called. |
| RestResponse.Response.GetResponse | src/Response.php:62-64 | Returns the stored body. |
| RestResponse.Response.GetHeaders | src/Response.php:76-78 | Returns the stored headers. |
| RestResponse.Response.GetInfo | src/Response.php:90-92 | Returns the stored info. |
| RestResponse.Response.GetError | src/Response.php:104-106 | Returns the stored error text. |
| RestResponse.Response.SetResponse | src/Response.php:62-71 | `getResponse` returns what was set, and no other field changes. |
| RestResponse.Response.SetHeaders | src/Response.php:76-85 | `getHeaders` returns what was set, and no other field changes. |
| RestResponse.Response.SetInfo | src/Response.php:90-99 | `getInfo` returns what was set, and no other field changes. |
| RestResponse.Response.SetError | src/Response.php:104-113 | `getError` returns what was set, and no other field changes. |
| RestResponse.Response.DecodeResponse | src/Response.php:178-192 | A non-empty cache is returned without a decoder call. An empty cache is decoded with one call, the cursor resets and the result is cached. An error leaves the cache and counter unchanged. |
| RestResponse.ResponseFormat | src/Response.php:199-218 | "A response must exist" exactly when the body is falsy. "could not be determined" exactly when there is a body, no format is configured and no header format. No other error occurs. Without a configured format, a format found is the one the content type names. |
| RestResponse.ConfiguredFormatWins | src/Response.php:204-206 | With a configured format, the headers do not matter, and a non-empty body gets that format. |
| RestResponse.DecodeOutcome | src/Response.php:178-192 | A format error propagates unchanged. With a format, decoding fails as unsupported exactly when no decoder is registered for it, and otherwise gives that decoder applied to the body. A decoded value always comes from a truthy body. |
| RestResponse.DefaultGroup2 | src/Response.php:210-214 | The default pattern matches exactly when some `/` has a word character on both sides. Group 2 is then a non-empty word. |
| RestResponse.FirstSlash | src/Response.php:211 | The leftmost place where `(\w+)\/(\w+)` can match. |
| RestResponse.WordEnd | src/Response.php:211 | The greedy extent of `\w+`. |
| RestResponse.WordEndAt | src/Response.php:211 | The greedy extent is determined by the run of word characters. |
| RestResponse.MediaTypeSubtype | src/Response.php:210-214 | For `type/subtype` followed by a non-word character or nothing, the format is the subtype. |
| RestResponse.JsonContentType | src/Response.php:210-214 | `application/json; charset=utf-8` yields `json`. |
| RestResponse.DefaultsDecodeJson | src/Response.php:178-214 | With the default options, a non-empty body served as `application/json; charset=utf-8` is decoded by `json_decode`. |
| RestResponse.Response.Current | src/Response.php:122-124 | null on a scalar. On an element of an array, that element's value. |
| RestResponse.Response.Key | src/Response.php:144-146 | A key exactly while the cursor is on an element. On an array element, that element's key. |
| RestResponse.Response.IteratorValid | src/Response.php:156-159 | `valid()` holds exactly when the value is an array and `key()` is not null, that is, when the cursor is on one of its elements. |
| RestResponse.Response.Next | src/Response.php:133-135 | Advances one element, stays put at the end, and returns the new current value. Nothing else changes. |
| RestResponse.Response.Rewind | src/Response.php:168-172 | Decodes when needed, puts the cursor on the first element and returns its value. A decoding error propagates with nothing changed. A second rewind sees the same value. The decoder is called once exactly when the cache was empty and decoding succeeds. |
| RestResponse.Response.OffsetExists | src/Response.php:256-261 | Decodes when needed, then is true exactly when the key is present with a non-null value. A cached value and the cursor stay. A fresh decode sets the cache and resets the cursor. An error changes nothing. |
| RestResponse.Response.OffsetGet | src/Response.php:232-239 | Returns null unless the key is set, and the stored value otherwise. It calls the decoder once for a fresh non-empty result, twice for an empty one, and never while cached. The cache and cursor change as for `offsetExists`. |
| RestResponse.Response.OffsetSet | src/Response.php:278-280 | Always throws "immutable" and changes nothing. |
| RestResponse.Response.OffsetUnset | src/Response.php:294-296 | Always throws "immutable" and changes nothing. |
| PhpValues.OffsetValue | src/Response.php:237-238 | null exactly when the key is not set, and the stored value otherwise. |
| PhpValues.ValidMeansOnElement | src/Response.php:156-159 | `valid()` holds exactly on an array with the cursor on an element. Objects and scalars are never valid. |
| PhpValues.WalkFromStart | src/Response.php:133-135 | n calls of `next` move the cursor n elements, and never past the end. |
| PhpValues.IterationOrder | src/Response.php:122-172 | From `rewind`, step i shows the i-th key and value. After the last element, `valid()` stays false. |
| PhpValues.SetKeyMeansNonEmpty | src/Response.php:179 | A value with a set key is never `empty()`, so the cache keeps it. |
| PhpArrays.Lookup | src/Client.php:194 | A key is found exactly when it is present. |
| PhpArrays.Assign | src/Client.php:143 | The key maps to the new value. An existing key keeps its place and a new one goes last. Unique keys stay unique. |
| PhpArrays.AssignLookup | src/Client.php:143 | An assignment changes the value found under that key only. |
| PhpArrays.Overlay | src/Client.php:142-144 | Overlaying keeps unique keys unique. |
| PhpArrays.OverlayLookup | src/Client.php:101 | After `array_merge`, the later array's keys carry its values, and the other keys keep the earlier values. |
| PhpArrays.OverlayKeys | src/Client.php:101 | The earlier array's keys keep their order, and the later array's new keys follow in its order. |
| PhpArrays.OverlaySnoc | src/Client.php:142-144 | Overlaying one more entry is one more assignment. |
| PhpArrays.LookupAt | src/Client.php:102-103 | In an array with unique keys, the i-th key finds the i-th value. |
| PhpArrays.Keys | src/Client.php:102 | The keys in order, one per entry. |
| Options.SuppliedDecodersFrom | src/Client.php:38-40 | The caller's decoder table, when present, has unique keys. Absent means no setting names decoders. |
| Options.ApplyAllKeepsDecoders | src/Client.php:37 | Without a decoders setting, the merge leaves the built-in table alone. |

## Left out

- **The cURL transport** (`curl_init`, `curl_setopt_array`, `curl_exec`,
  `curl_getinfo`, `curl_error`, `curl_close`). This is network I/O. It is
  the `Transport` parameter, and a failed `curl_exec` (false) is the
  empty result. The info table is opaque.
- **Decoders.** `json_decode` and `unserialize` are foreign library code.
  They are abstract `Decoder` functions and are assumed deterministic.
- **A general PCRE engine.** A caller's `format_regex` is abstract: what
  it captures in group 2, or nothing. A caller pattern that matches
  without a group 2 (PHP then reads null) is not modelled.
- **PHP key coercion.** Numeric-string keys becoming integers, and
  `array_merge` renumbering integer keys, are not modelled. Headers,
  parameters and decoders are keyed by strings, and cURL options by
  integers.
- **Option keys.** Unknown option keys, and option values of the wrong
  type (a non-array `headers`, say), are not modelled. Every setting
  names one of the ten known options, with its own type.
- **Multibyte text.** Characters stand for bytes. `urlencode` of a
  character above 255 encodes its code modulo 256. The round trip is
  proved for byte strings only.
- **Decoded values.** Floats and resources are not modelled. A decoded
  value is null, a boolean, an integer, a string, an array or an object.
- **Null fields.** Before they are set, the fields a response reads are
  null. The model gives each the empty value of its type; every condition in
  the code treats null and that value alike.
- **PHP 8 errors.** Where PHP 8 throws a `TypeError` and PHP 7 warns and
  returns null, the PHP 7 result is modelled. This covers
  `current`/`key`/`next`/`reset` on a scalar, and `preg_match` on a
  repeated (array) header.
- **The string cast.** `(string)$parameters` of a non-array: the model
  receives the string it produces.
