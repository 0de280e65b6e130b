/** The client's options table (Client::$options): defaults, the constructor's
    merge of caller options, setOption() and the decoder table. */
module Options {
  import opened Results
  import opened PhpArrays
  import opened PhpValues

  /** A value in the cURL option array. */
  datatype CurlValue = Flag(b: bool) | Number(n: int) | Text(s: string) | Lines(items: seq<string>)

  /** The format_regex option: the built-in pattern "/(\w+)\/(\w+)(;[.+])?/",
      or a caller's pattern given by what preg_match puts in capture group 2
      (None when it does not match). */
  datatype Pattern = DefaultPattern | CustomPattern(group2: string -> Option<string>)

  /** The options the client and its responses read. Null options are None. */
  datatype Options = Options(
    headers: Dict<string, string>,
    parameters: Dict<string, string>,
    curlOptions: Dict<int, CurlValue>,
    userAgent: string,
    baseUrl: Option<string>,
    format: Option<string>,
    formatRegex: Pattern,
    decoders: Dict<string, Decoder>,
    username: Option<string>,
    password: Option<string>)

  const DefaultUserAgent: string := "PHP RestClient/0.1.4"

  /** The built-in decoder table: json => json_decode, php => unserialize. */
  function BuiltinDecoders(jsonDecode: Decoder, unserialize: Decoder): Dict<string, Decoder> {
    [("json", jsonDecode), ("php", unserialize)]
  }

  /** $default_options in the constructor. */
  function Defaults(jsonDecode: Decoder, unserialize: Decoder): Options {
    Options([], [], [], DefaultUserAgent, None, None, DefaultPattern,
            BuiltinDecoders(jsonDecode, unserialize), None, None)
  }

  /** One entry of the caller's option array, or one setOption() call. */
  datatype Setting =
    | SetHeaders(headers: Dict<string, string>)
    | SetParameters(parameters: Dict<string, string>)
    | SetCurlOptions(curlOptions: Dict<int, CurlValue>)
    | SetUserAgent(userAgent: string)
    | SetBaseUrl(baseUrl: Option<string>)
    | SetFormat(format: Option<string>)
    | SetFormatRegex(formatRegex: Pattern)
    | SetDecoders(decoders: Dict<string, Decoder>)
    | SetUsername(username: Option<string>)
    | SetPassword(password: Option<string>)

  /** $options[$key] = $value: the named option takes the new value and every
      other option is unchanged. */
  function Apply(o: Options, s: Setting): (r: Options)
    ensures s.SetHeaders? ==> r.headers == s.headers
    ensures s.SetParameters? ==> r.parameters == s.parameters
    ensures s.SetCurlOptions? ==> r.curlOptions == s.curlOptions
    ensures s.SetUserAgent? ==> r.userAgent == s.userAgent
    ensures s.SetBaseUrl? ==> r.baseUrl == s.baseUrl
    ensures s.SetFormat? ==> r.format == s.format
    ensures s.SetFormatRegex? ==> r.formatRegex == s.formatRegex
    ensures s.SetDecoders? ==> r.decoders == s.decoders
    ensures s.SetUsername? ==> r.username == s.username
    ensures s.SetPassword? ==> r.password == s.password
    ensures !s.SetHeaders? ==> r.headers == o.headers
    ensures !s.SetParameters? ==> r.parameters == o.parameters
    ensures !s.SetCurlOptions? ==> r.curlOptions == o.curlOptions
    ensures !s.SetUserAgent? ==> r.userAgent == o.userAgent
    ensures !s.SetBaseUrl? ==> r.baseUrl == o.baseUrl
    ensures !s.SetFormat? ==> r.format == o.format
    ensures !s.SetFormatRegex? ==> r.formatRegex == o.formatRegex
    ensures !s.SetDecoders? ==> r.decoders == o.decoders
    ensures !s.SetUsername? ==> r.username == o.username
    ensures !s.SetPassword? ==> r.password == o.password
  {
    match s
    case SetHeaders(h) => o.(headers := h)
    case SetParameters(p) => o.(parameters := p)
    case SetCurlOptions(c) => o.(curlOptions := c)
    case SetUserAgent(u) => o.(userAgent := u)
    case SetBaseUrl(b) => o.(baseUrl := b)
    case SetFormat(f) => o.(format := f)
    case SetFormatRegex(p) => o.(formatRegex := p)
    case SetDecoders(d) => o.(decoders := d)
    case SetUsername(u) => o.(username := u)
    case SetPassword(p) => o.(password := p)
  }

  /** array_merge($default_options, $options): each caller entry replaces the
      default of the same key, a later entry replacing an earlier one. */
  function ApplyAll(o: Options, settings: seq<Setting>): Options
    decreases |settings|
  {
    if settings == [] then o else ApplyAll(Apply(o, settings[0]), settings[1..])
  }

  /** $options['decoders'] when the caller supplied one (the last one wins). */
  function SuppliedDecoders(settings: seq<Setting>): Option<Dict<string, Decoder>>
    decreases |settings|
  {
    if settings == [] then None
    else match SuppliedDecoders(settings[1..])
      case Some(d) => Some(d)
      case None => if settings[0].SetDecoders? then Some(settings[0].decoders) else None
  }

  /** The constructor: defaults overlaid with the caller's options, and then
      the decoder table rebuilt as the built-ins overlaid with the caller's
      decoders. */
  function Construct(settings: seq<Setting>, jsonDecode: Decoder, unserialize: Decoder): (r: Options)
    ensures settings == [] ==> r == Defaults(jsonDecode, unserialize)
    ensures r.(decoders := []) == ApplyAll(Defaults(jsonDecode, unserialize), settings).(decoders := [])
    ensures SuppliedDecoders(settings).Some? ==>
      r.decoders == Overlay(BuiltinDecoders(jsonDecode, unserialize), SuppliedDecoders(settings).value)
    ensures SuppliedDecoders(settings).None? ==> r.decoders == BuiltinDecoders(jsonDecode, unserialize)
  {
    var merged := ApplyAll(Defaults(jsonDecode, unserialize), settings);
    match SuppliedDecoders(settings)
    case None =>
      ApplyAllKeepsDecoders(Defaults(jsonDecode, unserialize), settings);
      merged
    case Some(d) => merged.(decoders := Overlay(BuiltinDecoders(jsonDecode, unserialize), d))
  }

  /** Every table in the options is a PHP array (no key twice). */
  predicate WellFormed(o: Options) {
    UniqueKeys(o.headers) && UniqueKeys(o.parameters) &&
    UniqueKeys(o.curlOptions) && UniqueKeys(o.decoders)
  }

  predicate WellFormedSetting(s: Setting) {
    match s
    case SetHeaders(h) => UniqueKeys(h)
    case SetParameters(p) => UniqueKeys(p)
    case SetCurlOptions(c) => UniqueKeys(c)
    case SetDecoders(d) => UniqueKeys(d)
    case _ => true
  }

  predicate AllWellFormed(settings: seq<Setting>) {
    forall i :: 0 <= i < |settings| ==> WellFormedSetting(settings[i])
  }

  lemma {:induction false} ApplyAllWellFormed(o: Options, settings: seq<Setting>)
    requires WellFormed(o) && AllWellFormed(settings)
    ensures WellFormed(ApplyAll(o, settings))
    decreases |settings|
  {
    if settings != [] {
      assert WellFormedSetting(settings[0]);
      ApplyAllWellFormed(Apply(o, settings[0]), settings[1..]);
    }
  }

  lemma {:induction false} SuppliedDecodersFrom(settings: seq<Setting>)
    requires AllWellFormed(settings)
    ensures SuppliedDecoders(settings).Some? ==> UniqueKeys(SuppliedDecoders(settings).value)
    ensures SuppliedDecoders(settings).None? ==> forall i :: 0 <= i < |settings| ==> !settings[i].SetDecoders?
    decreases |settings|
  {
    if settings != [] {
      SuppliedDecodersFrom(settings[1..]);
      assert WellFormedSetting(settings[0]);
      if SuppliedDecoders(settings).None? {
        forall i | 0 <= i < |settings| ensures !settings[i].SetDecoders? {
          if i > 0 { assert settings[i] == settings[1..][i - 1]; }
        }
      }
    }
  }

  /** Without a decoders entry, ApplyAll leaves the decoder table alone. */
  lemma {:induction false} ApplyAllKeepsDecoders(o: Options, settings: seq<Setting>)
    requires SuppliedDecoders(settings).None?
    ensures ApplyAll(o, settings).decoders == o.decoders
    decreases |settings|
  {
    if settings != [] {
      assert !settings[0].SetDecoders?;
      ApplyAllKeepsDecoders(Apply(o, settings[0]), settings[1..]);
    }
  }

  /** The constructor keeps the built-in json and php decoders unless the
      caller's decoder table has the same key, and keeps all of the caller's
      decoders. */
  lemma ConstructDecoders(settings: seq<Setting>, jsonDecode: Decoder, unserialize: Decoder, f: string)
    requires AllWellFormed(settings)
    ensures var table := Construct(settings, jsonDecode, unserialize).decoders;
      var builtin := BuiltinDecoders(jsonDecode, unserialize);
      Lookup(table, f) ==
        match SuppliedDecoders(settings)
        case None => Lookup(builtin, f)
        case Some(d) => if HasKey(d, f) then Lookup(d, f) else Lookup(builtin, f)
    ensures var table := Construct(settings, jsonDecode, unserialize).decoders;
      (SuppliedDecoders(settings).None? || !HasKey(SuppliedDecoders(settings).value, "json"))
        ==> Lookup(table, "json") == Some(jsonDecode)
  {
    SuppliedDecodersFrom(settings);
    var builtin := BuiltinDecoders(jsonDecode, unserialize);
    match SuppliedDecoders(settings)
    case None =>
      ApplyAllKeepsDecoders(Defaults(jsonDecode, unserialize), settings);
    case Some(d) =>
      OverlayLookup(builtin, d, f);
      OverlayLookup(builtin, d, "json");
  }

  /** The constructor yields well-formed options. */
  lemma ConstructWellFormed(settings: seq<Setting>, jsonDecode: Decoder, unserialize: Decoder)
    requires AllWellFormed(settings)
    ensures WellFormed(Construct(settings, jsonDecode, unserialize))
  {
    var defaults := Defaults(jsonDecode, unserialize);
    var builtin: Dict<string, Decoder> := defaults.decoders;
    assert |builtin[1..][1..]| == 0;
    assert Keys(builtin[1..]) == ["php"];
    assert UniqueKeys(builtin[1..]);
    assert UniqueKeys(builtin);
    ApplyAllWellFormed(defaults, settings);
    SuppliedDecodersFrom(settings);
  }
}
