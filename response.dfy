/** RestClient\Response: a parsed response that decodes its body on demand
    with the decoder registered for its format, then exposes the decoded
    value through iteration (Iterator) and read-only indexing (ArrayAccess). */
module RestResponse {
  import opened Results
  import opened PhpStrings
  import opened PhpArrays
  import opened PhpValues
  import opened Options
  import opened HeaderParser

  /** The RestClientException a response can throw. */
  datatype Error =
    | NoResponse
    | UndeterminedFormat
    | UnsupportedFormat(format: string)
    | Immutable

  /** The exception messages. */
  function Message(e: Error): string {
    match e
    case NoResponse => "A response must exist before it can be decoded."
    case UndeterminedFormat => "Response format could not be determined."
    case UnsupportedFormat(f) =>
      "'" + f + "' is not a supported format, register a decoder to handle this response."
    case Immutable => "Decoded response data is immutable."
  }

  // ---------------------------------------------------------------------------
  // The default format_regex "/(\w+)\/(\w+)(;[.+])?/" and its capture group 2.

  /** \w without the u modifier: ASCII letters, digits and '_'. */
  predicate IsWordChar(c: char) {
    IsAlnumAscii(c) || c == '_'
  }

  /** The end of the run of word characters starting at i. */
  function WordEnd(s: string, i: nat): (e: nat)
    requires i <= |s|
    ensures i <= e <= |s|
    ensures forall k :: i <= k < e ==> IsWordChar(s[k])
    ensures e == |s| || !IsWordChar(s[e])
    decreases |s| - i
  {
    if i < |s| && IsWordChar(s[i]) then WordEnd(s, i + 1) else i
  }

  /** A '/' with a word character on each side: where (\w+)\/(\w+) can match. */
  predicate SlashBetweenWords(s: string, j: int) {
    0 < j && j + 1 < |s| && s[j] == '/' && IsWordChar(s[j - 1]) && IsWordChar(s[j + 1])
  }

  /** The first such '/' at or after j. */
  function FirstSlash(s: string, j: nat): (r: Option<nat>)
    ensures r.Some? ==>
      j <= r.value && SlashBetweenWords(s, r.value) &&
      forall k :: j <= k < r.value ==> !SlashBetweenWords(s, k)
    ensures r.None? ==> forall k :: j <= k ==> !SlashBetweenWords(s, k)
    decreases |s| - j
  {
    if j >= |s| then None
    else if SlashBetweenWords(s, j) then Some(j)
    else FirstSlash(s, j + 1)
  }

  /** preg_match with the default pattern, capture group 2. The leftmost match
      starts at the word run that ends at the first '/' between word
      characters; greedy \w+ takes the whole run after it, and the optional
      (;[.+])? never shortens it. */
  function DefaultGroup2(s: string): (r: Option<string>)
    ensures r.Some? <==> exists j :: SlashBetweenWords(s, j)
    ensures r.Some? ==> |r.value| > 0 && forall k :: 0 <= k < |r.value| ==> IsWordChar(r.value[k])
  {
    match FirstSlash(s, 0)
    case None => None
    case Some(j) => Some(s[j + 1..WordEnd(s, j + 1)])
  }

  /** WordEnd is determined by the run it measures. */
  lemma WordEndAt(s: string, i: nat, e: nat)
    requires i <= e <= |s|
    requires forall k :: i <= k < e ==> IsWordChar(s[k])
    requires e == |s| || !IsWordChar(s[e])
    ensures WordEnd(s, i) == e
  {
  }

  predicate IsWord(t: string) {
    |t| > 0 && forall k :: 0 <= k < |t| ==> IsWordChar(t[k])
  }

  /** For a media type "type/subtype" followed by anything that does not
      continue the subtype (such as "; charset=..."), group 2 is the subtype. */
  lemma MediaTypeSubtype(t: string, sub: string, rest: string)
    requires IsWord(t) && IsWord(sub)
    requires rest == [] || !IsWordChar(rest[0])
    ensures DefaultGroup2(t + "/" + sub + rest) == Some(sub)
  {
    var s := t + "/" + sub + rest;
    var j := |t|;
    assert s[j] == '/' && s[j - 1] == t[j - 1] && s[j + 1] == sub[0];
    forall k | 0 <= k < j ensures !SlashBetweenWords(s, k) {
      assert s[k] == t[k];
    }
    assert SlashBetweenWords(s, j);
    assert FirstSlash(s, 0) == Some(j);
    var e := j + 1 + |sub|;
    forall k | j + 1 <= k < e ensures IsWordChar(s[k]) {
      assert s[k] == sub[k - j - 1];
    }
    if e < |s| {
      assert s[e] == rest[0];
    }
    WordEndAt(s, j + 1, e);
    assert s[j + 1..e] == sub;
  }

  /** The usual JSON content type selects the "json" decoder. */
  lemma JsonContentType()
    ensures DefaultGroup2("application/json; charset=utf-8") == Some("json")
  {
    assert IsWord("application");
    assert IsWord("json");
    assert "application" + "/" + "json" + "; charset=utf-8" == "application/json; charset=utf-8";
    MediaTypeSubtype("application", "json", "; charset=utf-8");
  }

  /** Capture group 2 of the configured format_regex. */
  function Group2(p: Pattern, s: string): Option<string> {
    match p
    case DefaultPattern => DefaultGroup2(s)
    case CustomPattern(g) => g(s)
  }

  /** The format named by the content_type header: only a single, non-empty
      value is matched (a repeated header is an array, which preg_match does
      not accept). */
  function HeaderFormat(p: Pattern, contentType: Option<HeaderValue>): Option<string> {
    match contentType
    case Some(One(ct)) => if Truthy(ct) then Group2(p, ct) else None
    case _ => None
  }

  /** get_response_format(): no body is an error; a configured format wins;
      otherwise capture group 2 of the content type; otherwise an error.
      "A response must exist" is raised exactly when the body is falsy, "could
      not be determined" exactly when nothing names a format, and no other
      error is raised. */
  function ResponseFormat(o: Options, body: string, headers: Headers): (r: Result<string, Error>)
    ensures r == Err(NoResponse) <==> !Truthy(body)
    ensures r == Err(UndeterminedFormat) <==>
      Truthy(body) && !TruthyOpt(o.format) &&
      HeaderFormat(o.formatRegex, Lookup(headers, "content_type")).None?
    ensures r.Err? ==> r.error in {NoResponse, UndeterminedFormat}
    ensures r.Ok? && !TruthyOpt(o.format) ==>
      HeaderFormat(o.formatRegex, Lookup(headers, "content_type")) == Some(r.value)
  {
    if !Truthy(body) then Err(NoResponse)
    else if TruthyOpt(o.format) then Ok(o.format.value)
    else match HeaderFormat(o.formatRegex, Lookup(headers, "content_type"))
      case Some(f) => Ok(f)
      case None => Err(UndeterminedFormat)
  }

  /** What decoding the body yields: the format's error, the unsupported-format
      error exactly when no decoder is registered under the format, and
      otherwise the registered decoder applied to the body. */
  function DecodeOutcome(o: Options, body: string, headers: Headers): (r: Result<Value, Error>)
    ensures ResponseFormat(o, body, headers).Err? ==> r == Err(ResponseFormat(o, body, headers).error)
    ensures ResponseFormat(o, body, headers).Ok? ==>
      var f := ResponseFormat(o, body, headers).value;
      (r == Err(UnsupportedFormat(f)) <==> !HasKey(o.decoders, f)) &&
      (HasKey(o.decoders, f) ==> r == Ok(Lookup(o.decoders, f).value(body)))
    ensures r.Ok? ==> Truthy(body)
  {
    match ResponseFormat(o, body, headers)
    case Err(e) => Err(e)
    case Ok(f) =>
      match Lookup(o.decoders, f)
      case None => Err(UnsupportedFormat(f))
      case Some(decode) => Ok(decode(body))
  }

  /** A configured format makes the headers irrelevant. */
  lemma ConfiguredFormatWins(o: Options, body: string, h1: Headers, h2: Headers)
    requires TruthyOpt(o.format)
    ensures ResponseFormat(o, body, h1) == ResponseFormat(o, body, h2)
    ensures Truthy(body) ==> ResponseFormat(o, body, h1) == Ok(o.format.value)
  {
  }

  /** With the default options, a body served as JSON is handed to json_decode. */
  lemma DefaultsDecodeJson(jsonDecode: Decoder, unserialize: Decoder, body: string, headers: Headers)
    requires Truthy(body)
    requires Lookup(headers, "content_type") == Some(One("application/json; charset=utf-8"))
    ensures DecodeOutcome(Construct([], jsonDecode, unserialize), body, headers) == Ok(jsonDecode(body))
  {
    var o := Defaults(jsonDecode, unserialize);
    assert Construct([], jsonDecode, unserialize) == o;
    JsonContentType();
    assert HeaderFormat(o.formatRegex, Lookup(headers, "content_type")) == Some("json");
    assert ResponseFormat(o, body, headers) == Ok("json");
    assert Lookup(o.decoders, "json") == Some(jsonDecode);
  }

  // ---------------------------------------------------------------------------

  class Response {
    /** The client options the response was created with. */
    const options: Options
    var response: string
    var headers: Headers
    var info: Value
    var error: string
    /** The decode cache (decoded_response), null until first decoded. */
    var decoded: Value
    /** The decoded value's internal array pointer. */
    var cursor: nat
    /** How many times a decoder callback has run. */
    ghost var decoderCalls: nat

    ghost predicate Valid()
      reads this
    {
      cursor <= |Entries(decoded)|
    }

    /** What decodeResponse() returns from this state: the cached value when
        it is not empty(), a fresh decode otherwise. */
    function CachedOutcome(): Result<Value, Error>
      reads this
    {
      if IsEmpty(decoded) then DecodeOutcome(options, response, headers) else Ok(decoded)
    }

    /** Until set, body, headers, info and error are null; the model uses the
        empty value of each type in their place. */
    constructor(o: Options)
      ensures options == o && response == "" && headers == [] && info == Null && error == ""
      ensures decoded == Null && cursor == 0 && decoderCalls == 0
      ensures Valid()
    {
      options := o;
      response := "";
      headers := [];
      info := Null;
      error := "";
      decoded := Null;
      cursor := 0;
      decoderCalls := 0;
    }

    /** The getters hand back what the matching setter stored last. */
    function GetResponse(): (r: string)
      reads this
      ensures r == response
    {
      response
    }

    function GetHeaders(): (r: Headers)
      reads this
      ensures r == headers
    {
      headers
    }

    function GetInfo(): (r: Value)
      reads this
      ensures r == info
    {
      info
    }

    function GetError(): (r: string)
      reads this
      ensures r == error
    {
      error
    }

    method SetResponse(body: string)
      modifies this
      ensures GetResponse() == body
      ensures headers == old(headers) && info == old(info) && error == old(error)
      ensures decoded == old(decoded) && cursor == old(cursor) && decoderCalls == old(decoderCalls)
    {
      response := body;
    }

    method SetHeaders(h: Headers)
      modifies this
      ensures GetHeaders() == h
      ensures response == old(response) && info == old(info) && error == old(error)
      ensures decoded == old(decoded) && cursor == old(cursor) && decoderCalls == old(decoderCalls)
    {
      headers := h;
    }

    method SetInfo(i: Value)
      modifies this
      ensures GetInfo() == i
      ensures response == old(response) && headers == old(headers) && error == old(error)
      ensures decoded == old(decoded) && cursor == old(cursor) && decoderCalls == old(decoderCalls)
    {
      info := i;
    }

    method SetError(e: string)
      modifies this
      ensures GetError() == e
      ensures response == old(response) && headers == old(headers) && info == old(info)
      ensures decoded == old(decoded) && cursor == old(cursor) && decoderCalls == old(decoderCalls)
    {
      error := e;
    }

    /** decodeResponse(): decode only while the cache is empty(). A successful
        decode fills the cache (pointer at its start) and runs the decoder
        once; a failure changes nothing. */
    method DecodeResponse() returns (r: Result<Value, Error>)
      requires Valid()
      modifies this
      ensures Valid()
      ensures r == old(CachedOutcome())
      ensures response == old(response) && headers == old(headers)
      ensures info == old(info) && error == old(error)
      ensures r.Ok? ==> decoded == r.value
      ensures !old(IsEmpty(decoded)) ==> cursor == old(cursor) && decoderCalls == old(decoderCalls)
      ensures old(IsEmpty(decoded)) && r.Ok? ==> cursor == 0 && decoderCalls == old(decoderCalls) + 1
      ensures r.Err? ==> decoded == old(decoded) && cursor == old(cursor) && decoderCalls == old(decoderCalls)
      ensures r.Ok? ==> CachedOutcome() == r
    {
      if IsEmpty(decoded) {
        var format := ResponseFormat(options, response, headers);
        if format.Err? {
          return Err(format.error);
        }
        var decoder := Lookup(options.decoders, format.value);
        if decoder.None? {
          return Err(UnsupportedFormat(format.value));
        }
        decoded := decoder.value(response);
        cursor := 0;
        decoderCalls := decoderCalls + 1;
      }
      r := Ok(decoded);
    }

    /** current(): the element under the pointer. */
    function Current(): (r: Value)
      reads this
      ensures !IsCollection(decoded) ==> r == Null
      ensures IteratorValid() ==> r == decoded.entries[cursor].1
    {
      CurrentAt(decoded, cursor)
    }

    /** key(): the key under the pointer, null (None) when there is none. */
    function Key(): (r: Option<ArrayKey>)
      reads this
      ensures r.Some? <==> cursor < |Entries(decoded)|
      ensures IteratorValid() ==> r == Some(decoded.entries[cursor].0)
    {
      KeyAt(decoded, cursor)
    }

    /** valid(): an array with the pointer on an element. */
    predicate IteratorValid()
      reads this
      ensures IteratorValid() <==> decoded.Arr? && KeyAt(decoded, cursor).Some?
      ensures IteratorValid() <==> decoded.Arr? && cursor < |decoded.entries|
    {
      ValidAt(decoded, cursor)
    }

    /** next(): advance the pointer and return the element now under it
        (false past the end). */
    method Next() returns (r: Value)
      requires Valid()
      modifies this
      ensures Valid()
      ensures cursor == NextAt(decoded, old(cursor)) && r == Current()
      ensures decoded == old(decoded) && response == old(response) && headers == old(headers)
      ensures info == old(info) && error == old(error) && decoderCalls == old(decoderCalls)
    {
      cursor := NextAt(decoded, cursor);
      r := CurrentAt(decoded, cursor);
    }

    /** rewind(): decode (when needed), then reset the pointer and return the
        first element; a decoding error propagates and changes nothing. */
    method Rewind() returns (r: Result<Value, Error>)
      requires Valid()
      modifies this
      ensures Valid()
      ensures r.Err? <==> old(CachedOutcome()).Err?
      ensures r.Err? ==> r.error == old(CachedOutcome()).error
      ensures r.Err? ==> decoded == old(decoded) && cursor == old(cursor)
      ensures r.Ok? ==> decoded == old(CachedOutcome()).value && cursor == 0 && r.value == Current()
      ensures r.Ok? ==> CachedOutcome() == old(CachedOutcome())
      ensures response == old(response) && headers == old(headers)
      ensures info == old(info) && error == old(error)
      ensures decoderCalls ==
        old(decoderCalls) + (if old(IsEmpty(decoded)) && old(CachedOutcome()).Ok? then 1 else 0)
    {
      var d := DecodeResponse();
      if d.Err? {
        return Err(d.error);
      }
      cursor := 0;
      r := Ok(CurrentAt(decoded, cursor));
    }

    /** offsetExists(): decode (when needed), then isset on the decoded value. */
    method OffsetExists(k: ArrayKey) returns (r: Result<bool, Error>)
      requires Valid()
      modifies this
      ensures Valid()
      ensures r == match old(CachedOutcome())
        case Ok(v) => Ok(IsSet(v, k))
        case Err(e) => Err(e)
      ensures response == old(response) && headers == old(headers)
      ensures info == old(info) && error == old(error)
      ensures r.Ok? ==> decoded == old(CachedOutcome()).value && CachedOutcome() == old(CachedOutcome())
      ensures r.Err? ==> decoded == old(decoded) && cursor == old(cursor)
      ensures !old(IsEmpty(decoded)) ==> decoded == old(decoded) && cursor == old(cursor)
      ensures cursor == if old(IsEmpty(decoded)) && r.Ok? then 0 else old(cursor)
      ensures decoderCalls ==
        old(decoderCalls) + (if old(IsEmpty(decoded)) && old(CachedOutcome()).Ok? then 1 else 0)
    {
      var d := DecodeResponse();
      if d.Err? {
        return Err(d.error);
      }
      r := Ok(IsSet(decoded, k));
    }

    /** offsetGet(): null unless the key is set, the stored value otherwise.
        It decodes twice in a row, so a decode result that is empty() runs
        the decoder a second time. */
    method OffsetGet(k: ArrayKey) returns (r: Result<Value, Error>)
      requires Valid()
      modifies this
      ensures Valid()
      ensures r == match old(CachedOutcome())
        case Ok(v) => Ok(OffsetValue(v, k))
        case Err(e) => Err(e)
      ensures response == old(response) && headers == old(headers)
      ensures info == old(info) && error == old(error)
      ensures r.Ok? ==> decoded == old(CachedOutcome()).value && CachedOutcome() == old(CachedOutcome())
      ensures r.Err? ==> decoded == old(decoded) && cursor == old(cursor)
      ensures !old(IsEmpty(decoded)) ==> decoded == old(decoded) && cursor == old(cursor)
      ensures cursor == if old(IsEmpty(decoded)) && r.Ok? then 0 else old(cursor)
      ensures decoderCalls == old(decoderCalls) +
        (if !old(IsEmpty(decoded)) || old(CachedOutcome()).Err? then 0
         else if IsEmpty(old(CachedOutcome()).value) then 2
         else 1)
    {
      var d := DecodeResponse();
      if d.Err? {
        return Err(d.error);
      }
      var present := OffsetExists(k);
      // The second decode starts from the state the first one left.
      assert present.Ok?;
      if !present.value {
        return Ok(Null);
      }
      r := Ok(OffsetValue(decoded, k));
    }

    /** offsetSet(): always refused. */
    method OffsetSet(k: ArrayKey, v: Value) returns (e: Error)
      ensures e == Immutable
    {
      e := Immutable;
    }

    /** offsetUnset(): always refused. */
    method OffsetUnset(k: ArrayKey) returns (e: Error)
      ensures e == Immutable
    {
      e := Immutable;
    }
  }
}
